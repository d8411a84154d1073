/**
 That a tree is not watched in part (apps/server/src/watch.ts, `createFolderTreeWatch`): while the files
 stay as they are, or once they do, each folder its walks can reach is watched, or some walk or event still
 gets there. Other trees share the budget and do as they like.
 */
module FolderTreeWhole {
  import opened Common
  import opened FolderTree
  import opened FolderTreeRuns

  /** Files that stay as they are: what `lstat`, `readdir` and `fs.watch` say of each path. */
  datatype Files = Files(stat: Path -> Stat, list: Path -> Listing, watch: Path -> OsWatch)

  /** A folder of the tree's device. */
  predicate Enters(f: Files, dev: nat, p: Path) {
    f.stat(p).Found? && f.stat(p).isDir && f.stat(p).dev == dev
  }

  /** And one that may be watched: only the refusal of a folder that went or may not be read leaves it out. */
  predicate Watchable(f: Files, dev: nat, p: Path) {
    Enters(f, dev, p) && f.watch(p) != SkippedError
  }

  /** Its folder lists it, as a folder (and not as a link to one). */
  predicate Listed(f: Files, dir: Path, name: string) {
    f.list(dir).Entries? && Entry(name, true) in f.list(dir).entries
  }

  /** What is asked for tree `ix` is answered by the files. */
  ghost predicate Answers(f: Files, s: State, ix: nat, e: Event) {
    match e
    case LstatDone(k, st, os) =>
      k in s.walks && s.walks[k].Lstat? && s.walks[k].tree == ix ==>
        st == f.stat(s.walks[k].path) && os == f.watch(s.walks[k].path)
    case ReaddirDone(k, listing) =>
      k in s.walks && s.walks[k].Readdir? && s.walks[k].tree == ix ==> listing == f.list(s.walks[k].dir)
    case _ => true
  }

  ghost predicate AllAnswered(f: Files, limit: nat, s: State, ix: nat, es: seq<Event>)
    decreases |es|
  {
    es == [] || (Answers(f, s, ix, es[0]) && AllAnswered(f, limit, Next(limit, s, es[0]), ix, es[1..]))
  }

  /**
   What a tree may still be wrong about: `due` has the paths of which an event is yet to come, `lost` the
   folders whose watch failed.
   */
  datatype Open = Open(due: set<Path>, lost: set<Path>)

  /** An event that comes is due no more; a watch that fails below the root is lost. */
  function Onwards(s: State, ix: nat, o: Open, e: Event): Open {
    match e
    case Changed(h, Some(name)) =>
      if h in s.pool.made && s.pool.made[h].tree == ix then o.(due := o.due - {s.pool.made[h].dir + [name]}) else o
    case WatchError(h) =>
      if h in s.pool.made && s.pool.made[h].tree == ix && ix < |s.trees| && s.pool.made[h].dir != s.trees[ix].root
      then o.(lost := o.lost + {s.pool.made[h].dir}) else o
    case _ => o
  }

  function OnwardsAll(limit: nat, s: State, ix: nat, o: Open, es: seq<Event>): Open
    decreases |es|
  {
    if es == [] then o else OnwardsAll(limit, Next(limit, s, es[0]), ix, Onwards(s, ix, o, es[0]), es[1..])
  }

  // --- What is kept ---------------------------------------------------------------------------------

  /** A watched path is still the folder it was watched as. */
  predicate Same(f: Files, t: Tree, p: Path) {
    p in t.watchers && Enters(f, t.dev, p) && t.watchers[p].id == f.stat(p).id
  }

  predicate Looks(w: Walk, ix: nat, p: Path) {
    w.Lstat? && w.tree == ix && w.path == p
  }

  /** It is to be looked at: an event of it is yet to come, or a walk is at it. */
  ghost predicate DueAt(ix: nat, walks: map<nat, Walk>, o: Open, p: Path) {
    p in o.due || exists k :: k in walks && Looks(walks[k], ix, p)
  }

  /** A watched path that is not what it was, and will be looked at. */
  ghost predicate GoesSoon(f: Files, t: Tree, ix: nat, walks: map<nat, Walk>, o: Open, q: Path) {
    q in t.watchers && q != t.root && !Same(f, t, q) && DueAt(ix, walks, o, q)
  }

  /** A path goes with something at or above it. */
  ghost predicate Covered(f: Files, t: Tree, ix: nat, walks: map<nat, Walk>, o: Open, p: Path) {
    exists q :: q <= p && GoesSoon(f, t, ix, walks, o, q)
  }

  /** What is watched and is not what it was, does. */
  ghost predicate NoneStale(f: Files, t: Tree, ix: nat, walks: map<nat, Walk>, o: Open) {
    forall p :: p in t.watchers && p != t.root && !Same(f, t, p) ==> Covered(f, t, ix, walks, o, p)
  }

  /** A folder that should be watched, since the one it is in is. */
  ghost predicate Wanted(f: Files, t: Tree, dir: Path, name: string) {
    && dir in t.watchers && Listed(f, dir, name)
    && |dir| + 1 - |t.root| < MAX_DEPTH && Watchable(f, t.dev, dir + [name])
  }

  predicate InStack(stack: seq<Frame>, dir: Path, name: string) {
    exists i :: 0 <= i < |stack| && stack[i].dir == dir && Entry(name, true) in stack[i].left
  }

  /** The walk still gets to it. */
  predicate Reaches(w: Walk, ix: nat, dir: Path, name: string) {
    w.tree == ix &&
    match w
    case Lstat(_, path, _, stack) => path == dir + [name] || InStack(stack, dir, name)
    case Readdir(_, d, _, stack) => d == dir || InStack(stack, dir, name)
    case Loop(_, stack) => InStack(stack, dir, name)
    case Failing(_) => false
  }

  ghost predicate Ahead(ix: nat, walks: map<nat, Walk>, dir: Path, name: string) {
    exists k :: k in walks && Reaches(walks[k], ix, dir, name)
  }

  /** At or below a folder whose watch failed. */
  predicate BelowLost(o: Open, p: Path) {
    exists q :: q in o.lost && q <= p
  }

  /** It needs nothing more: it is watched, or will be looked at, or its folder goes first, or it is lost. */
  ghost predicate Settled(f: Files, t: Tree, ix: nat, walks: map<nat, Walk>, o: Open, dir: Path, name: string) {
    || dir + [name] in t.watchers || Ahead(ix, walks, dir, name) || dir + [name] in o.due
    || Covered(f, t, ix, walks, o, dir) || BelowLost(o, dir + [name])
  }

  ghost predicate NoneLeftOut(f: Files, t: Tree, ix: nat, walks: map<nat, Walk>, o: Open) {
    forall dir, name :: Wanted(f, t, dir, name) ==> Settled(f, t, ix, walks, o, dir, name)
  }

  /** A walk came to an error, which is about to close the tree. */
  ghost predicate IsFailing(ix: nat, walks: map<nat, Walk>) {
    exists k :: k in walks && walks[k] == Failing(ix)
  }

  ghost predicate WholeTree(f: Files, t: Tree, ix: nat, walks: map<nat, Walk>, o: Open) {
    IsFailing(ix, walks) || (NoneStale(f, t, ix, walks, o) && NoneLeftOut(f, t, ix, walks, o))
  }

  ghost predicate Whole(f: Files, s: State, ix: nat, o: Open) {
    ix < |s.trees| && !s.trees[ix].closed ==> WholeTree(f, s.trees[ix], ix, s.walks, o)
  }

  // --- Walks go on in a tree that stays as it is -------------------------------------------------------

  /** What was ahead of the walk before is ahead of it now, or needs no walk. */
  ghost predicate NothingLost(f: Files, t: Tree, ix: nat, was: Walk, now: Walk) {
    && (forall dir, name :: Wanted(f, t, dir, name) && Reaches(was, ix, dir, name) ==>
          dir + [name] in t.watchers || Reaches(now, ix, dir, name))
    && (was.Lstat? && was.path in t.watchers && was.path != t.root ==> Same(f, t, was.path))
  }

  /** Walks that gave way to others: what each got to, one of these does, or it needs no walk. */
  ghost predicate NoneGone(f: Files, t: Tree, ix: nat, walks: map<nat, Walk>, walks': map<nat, Walk>, o: Open,
         o': Open) {
    && o'.lost == o.lost
    && (forall dir, name :: Wanted(f, t, dir, name) && Settled(f, t, ix, walks, o, dir, name) ==>
          Settled(f, t, ix, walks', o', dir, name))
    && (forall q :: GoesSoon(f, t, ix, walks, o, q) ==> GoesSoon(f, t, ix, walks', o', q))
    && (IsFailing(ix, walks) ==> IsFailing(ix, walks'))
  }

  lemma NoneGoneIsWhole(f: Files, t: Tree, ix: nat, walks: map<nat, Walk>, walks': map<nat, Walk>, o: Open, o': Open)
    requires WholeTree(f, t, ix, walks, o) && NoneGone(f, t, ix, walks, walks', o, o')
    ensures WholeTree(f, t, ix, walks', o')
  {
    hide Wanted, Settled, GoesSoon, Same;
    if !IsFailing(ix, walks') {
      forall p | Covered(f, t, ix, walks, o, p) ensures Covered(f, t, ix, walks', o', p) {
        var q :| q <= p && GoesSoon(f, t, ix, walks, o, q);
        assert GoesSoon(f, t, ix, walks', o', q);
      }
    }
  }

  lemma WalkGoesOn(f: Files, t: Tree, ix: nat, walks: map<nat, Walk>, k: nat, now: Walk, o: Open)
    requires WholeTree(f, t, ix, walks, o) && k in walks && !walks[k].Failing? && walks[k].tree == now.tree
    requires now.tree == ix ==> NothingLost(f, t, ix, walks[k], now)
    ensures WholeTree(f, t, ix, walks[k := now], o)
  {
    var walks' := walks[k := now];
    forall q | GoesSoon(f, t, ix, walks, o, q) ensures GoesSoon(f, t, ix, walks', o, q) {
      WalkLooks(f, t, ix, walks, k, now, o, q);
    }
    forall dir, name | Wanted(f, t, dir, name) && Settled(f, t, ix, walks, o, dir, name)
      ensures Settled(f, t, ix, walks', o, dir, name)
    {
      CoveredStill(f, t, ix, walks, walks', o, o, dir);
      WalkReaches(f, t, ix, walks, k, now, o, dir, name);
    }
    FailingStays(ix, walks, k, now);
    hide Wanted, Settled, GoesSoon, WholeTree, IsFailing;
    NoneGoneIsWhole(f, t, ix, walks, walks', o, o);
  }

  lemma FailingStays(ix: nat, walks: map<nat, Walk>, k: nat, now: Walk)
    requires k in walks ==> !walks[k].Failing?
    ensures IsFailing(ix, walks) ==> IsFailing(ix, walks[k := now])
  {
    if j :| j in walks && walks[j] == Failing(ix) {
      assert walks[k := now][j] == Failing(ix);
    }
  }

  lemma CoveredStill(f: Files, t: Tree, ix: nat, walks: map<nat, Walk>, walks': map<nat, Walk>, o: Open, o': Open,
         p: Path)
    requires forall q :: GoesSoon(f, t, ix, walks, o, q) ==> GoesSoon(f, t, ix, walks', o', q)
    ensures Covered(f, t, ix, walks, o, p) ==> Covered(f, t, ix, walks', o', p)
  {
    hide GoesSoon;
  }

  lemma WalkReaches(f: Files, t: Tree, ix: nat, walks: map<nat, Walk>, k: nat, now: Walk, o: Open, dir: Path,
         name: string)
    requires k in walks && walks[k].tree == now.tree && (now.tree == ix ==> NothingLost(f, t, ix, walks[k], now))
    requires Wanted(f, t, dir, name) && Settled(f, t, ix, walks, o, dir, name)
    requires Covered(f, t, ix, walks, o, dir) ==> Covered(f, t, ix, walks[k := now], o, dir)
    ensures Settled(f, t, ix, walks[k := now], o, dir, name)
  {
    hide Wanted, Covered;
    var walks' := walks[k := now];
    if j :| j in walks && Reaches(walks[j], ix, dir, name) {
      if j != k {
        assert walks'[j] == walks[j];
      } else if dir + [name] !in t.watchers {
        assert Reaches(walks'[k], ix, dir, name);
      }
    }
  }

  lemma WalkLooks(f: Files, t: Tree, ix: nat, walks: map<nat, Walk>, k: nat, now: Walk, o: Open, q: Path)
    requires k in walks && walks[k].tree == now.tree && (now.tree == ix ==> NothingLost(f, t, ix, walks[k], now))
    requires GoesSoon(f, t, ix, walks, o, q)
    ensures GoesSoon(f, t, ix, walks[k := now], o, q)
  {
    hide Wanted, Same, Reaches;
    if j :| j in walks && Looks(walks[j], ix, q) {
      assert j != k;
      assert walks[k := now][j] == walks[j];
    }
  }

  lemma WalkFails(f: Files, t: Tree, ix: nat, walks: map<nat, Walk>, k: nat, o: Open)
    ensures WholeTree(f, t, ix, walks[k := Failing(ix)], o)
  {
    assert walks[k := Failing(ix)][k] == Failing(ix);
  }

  /** A walk begins, for the event of a path that is due no more or for none. */
  lemma WalkBegins(f: Files, t: Tree, ix: nat, walks: map<nat, Walk>, k: nat, now: Walk, o: Open, o': Open)
    requires WholeTree(f, t, ix, walks, o) && k !in walks && TreeFits(t) && o'.lost == o.lost
    requires forall p :: p in o.due && p !in o'.due ==> Looks(now, ix, p) || |p| - |t.root| >= MAX_DEPTH
    ensures WholeTree(f, t, ix, walks[k := now], o')
  {
    var walks' := walks[k := now];
    assert forall j :: j in walks ==> walks'[j] == walks[j];
    forall q | GoesSoon(f, t, ix, walks, o, q) ensures GoesSoon(f, t, ix, walks', o', q) {
      hide Same;
      assert Deep(t.root, q, t.watchers[q].depth);
      if j :| j in walks && Looks(walks[j], ix, q) {
        assert Looks(walks'[j], ix, q);
      }
      if q in o.due && q !in o'.due {
        assert Looks(walks'[k], ix, q);
      }
    }
    forall dir, name | Wanted(f, t, dir, name) && Settled(f, t, ix, walks, o, dir, name)
      ensures Settled(f, t, ix, walks', o', dir, name)
    {
      hide Listed, Watchable, Covered;
      CoveredStill(f, t, ix, walks, walks', o, o', dir);
      if j :| j in walks && Reaches(walks[j], ix, dir, name) {
        assert Reaches(walks'[j], ix, dir, name);
      }
      if dir + [name] in o.due && dir + [name] !in o'.due {
        assert Reaches(walks'[k], ix, dir, name);
      }
    }
    FailingStays(ix, walks, k, now);
    hide Wanted, Settled, GoesSoon, WholeTree, IsFailing;
    NoneGoneIsWhole(f, t, ix, walks, walks', o, o');
  }

  /** A walk that reaches nothing any more ends. */
  lemma WalkEnds(f: Files, t: Tree, ix: nat, walks: map<nat, Walk>, k: nat, o: Open)
    requires WholeTree(f, t, ix, walks, o) && k in walks && (walks[k].tree == ix ==> walks[k] == Loop(ix, []))
    ensures WholeTree(f, t, ix, walks - {k}, o)
  {
    hide Wanted, Same, Covered;
    var walks' := walks - {k};
    assert forall j :: j in walks' ==> walks'[j] == walks[j];
    forall dir, name | Ahead(ix, walks, dir, name) ensures Ahead(ix, walks', dir, name) {
      var j :| j in walks && Reaches(walks[j], ix, dir, name);
      assert j in walks' && walks'[j] == walks[j];
    }
    forall q | GoesSoon(f, t, ix, walks, o, q) ensures GoesSoon(f, t, ix, walks', o, q) {
      if j :| j in walks && Looks(walks[j], ix, q) {
        assert j in walks' && walks'[j] == walks[j];
      }
    }
    if j :| j in walks && walks[j] == Failing(ix) {
      assert j in walks' && walks'[j] == Failing(ix);
    }
    forall dir, name | Wanted(f, t, dir, name) && Settled(f, t, ix, walks, o, dir, name)
      ensures Settled(f, t, ix, walks', o, dir, name)
    {
      CoveredStill(f, t, ix, walks, walks', o, o, dir);
    }
    NoneGoneIsWhole(f, t, ix, walks, walks', o, o);
  }

  // --- A tree drops what is gone, and watches what it finds ---------------------------------------------

  /** What is left of a tree without some of its folders, and with `p` watched afresh if the files allow it. */
  function Seen(f: Files, t: Tree, gone: set<Path>, p: Path, h: Handle, depth: nat): Tree {
    if Watchable(f, t.dev, p) then t.(watchers := (t.watchers - gone)[p := Watch(h, f.stat(p).id, depth)])
    else t.(watchers := t.watchers - gone)
  }

  /** A walk has looked at `p`: it is dropped with all below it if it was watched, and watched afresh if it can be. */
  lemma LookedAt(f: Files, t: Tree, ix: nat, walks: map<nat, Walk>, k: nat, gone: set<Path>, h: Handle, o: Open)
    requires WholeTree(f, t, ix, walks, o) && k in walks && walks[k].Lstat? && walks[k].tree == ix
    requires var p := walks[k].path;
             p != t.root && t.root <= p && (gone == {} || gone == Below(t, p)) && p !in t.watchers - gone
    ensures var w := walks[k];
            var now := if Watchable(f, t.dev, w.path) then Readdir(ix, w.path, w.depth, w.stack) else Loop(ix, w.stack);
            WholeTree(f, Seen(f, t, gone, w.path, h, w.depth), ix, walks[k := now], o)
  {
    var w := walks[k];
    var now := if Watchable(f, t.dev, w.path) then Readdir(ix, w.path, w.depth, w.stack) else Loop(ix, w.stack);
    var t' := Seen(f, t, gone, w.path, h, w.depth);
    var walks' := walks[k := now];
    if j :| j in walks && walks[j] == Failing(ix) {
      assert walks'[j] == Failing(ix);
    } else {
      forall q | q in t'.watchers && q != t.root && !Same(f, t', q)
        ensures Covered(f, t', ix, walks', o, q)
      {
        StaleAfter(f, t, t', ix, walks, k, now, gone, h, o, q);
      }
      forall dir, name | Wanted(f, t', dir, name) ensures Settled(f, t', ix, walks', o, dir, name) {
        SettledAfter(f, t, t', ix, walks, k, now, gone, h, o, dir, name);
      }
    }
  }

  lemma StaleAfter(f: Files, t: Tree, t': Tree, ix: nat, walks: map<nat, Walk>, k: nat, now: Walk, gone: set<Path>,
         h: Handle,
                   o: Open, q: Path)
    requires k in walks && walks[k].Lstat? && walks[k].tree == ix && NoneStale(f, t, ix, walks, o)
    requires var p := walks[k].path;
             p != t.root && t.root <= p && (gone == {} || gone == Below(t, p)) && p !in t.watchers - gone
    requires t' == Seen(f, t, gone, walks[k].path, h, walks[k].depth)
    requires q in t'.watchers && q != t.root && !Same(f, t', q)
    ensures Covered(f, t', ix, walks[k := now], o, q)
  {
    var p := walks[k].path;
    var walks' := walks[k := now];
    SeenElse(f, t, t', gone, p, h, walks[k].depth, q);
    CoveredAfter(f, t, t', ix, walks, k, now, gone, h, o, q);
  }

  /** What went with something still does, unless it is gone with it. */
  lemma CoveredAfter(f: Files, t: Tree, t': Tree, ix: nat, walks: map<nat, Walk>, k: nat, now: Walk, gone: set<Path>,
                     h: Handle, o: Open, q: Path)
    requires k in walks && walks[k].Lstat? && walks[k].tree == ix && Covered(f, t, ix, walks, o, q)
    requires var p := walks[k].path;
             p != t.root && t.root <= p && (gone == {} || gone == Below(t, p)) && p !in t.watchers - gone
    requires t' == Seen(f, t, gone, walks[k].path, h, walks[k].depth)
    requires q in t.watchers && q !in gone
    ensures Covered(f, t', ix, walks[k := now], o, q)
  {
    hide Seen, Same, Below;
    var p := walks[k].path;
    var walks' := walks[k := now];
    var r :| r <= q && GoesSoon(f, t, ix, walks, o, r);
    BelowStays(t, gone, p, r, q);
    SeenElse(f, t, t', gone, p, h, walks[k].depth, r);
    if j :| j in walks && Looks(walks[j], ix, r) {
      assert walks'[j] == walks[j];
    }
    assert GoesSoon(f, t', ix, walks', o, r);
  }

  /** Elsewhere a tree is as it was, or without what is gone. */
  lemma SeenElse(f: Files, t: Tree, t': Tree, gone: set<Path>, p: Path, h: Handle, depth: nat, q: Path)
    requires t' == Seen(f, t, gone, p, h, depth)
    ensures t'.root == t.root && t'.dev == t.dev
    ensures q == p && q in t'.watchers && q !in t.watchers - gone ==> Same(f, t', q)
    ensures q != p ==> (q in t'.watchers <==> q in t.watchers && q !in gone)
    ensures q != p && q in t'.watchers ==> (Same(f, t', q) <==> Same(f, t, q))
  {
  }

  lemma BelowStays(t: Tree, gone: set<Path>, p: Path, r: Path, q: Path)
    requires (gone == {} || gone == Below(t, p)) && p !in t.watchers - gone && p != t.root && t.root <= p
    requires r <= q && r in t.watchers && r != t.root && q in t.watchers && q !in gone
    ensures r != p && r !in gone
  {
    assert p <= r ==> p <= q;
  }

  lemma Parent(p: Path, dir: Path, name: string)
    ensures p <= dir + [name] ==> p <= dir || p == dir + [name]
  {
    if p <= dir + [name] && |p| == |dir| + 1 {
      assert p == (dir + [name])[..|p|];
    }
  }

  lemma SettledAfter(f: Files, t: Tree, t': Tree, ix: nat, walks: map<nat, Walk>, k: nat, now: Walk, gone: set<Path>,
         h: Handle,
                     o: Open, dir: Path, name: string)
    requires k in walks && walks[k].Lstat? && walks[k].tree == ix && NoneLeftOut(f, t, ix, walks, o)
    requires var p := walks[k].path;
             p != t.root && t.root <= p && (gone == {} || gone == Below(t, p)) && p !in t.watchers - gone
    requires t' == Seen(f, t, gone, walks[k].path, h, walks[k].depth)
    requires var w := walks[k];
             now == if Watchable(f, t.dev, w.path) then Readdir(ix, w.path, w.depth, w.stack) else Loop(ix, w.stack)
    requires Wanted(f, t', dir, name)
    ensures Settled(f, t', ix, walks[k := now], o, dir, name)
  {
    var p := walks[k].path;
    var walks' := walks[k := now];
    hide Listed, Enters;
    if dir == p {
      assert Reaches(walks'[k], ix, dir, name);
    } else {
      assert Wanted(f, t, dir, name);
      assert Settled(f, t, ix, walks, o, dir, name);
      Parent(p, dir, name);
      SeenElse(f, t, t', gone, p, h, walks[k].depth, dir);
      if Covered(f, t, ix, walks, o, dir) {
        CoveredAfter(f, t, t', ix, walks, k, now, gone, h, o, dir);
      } else if dir + [name] !in t'.watchers {
        assert dir + [name] != p && dir + [name] !in t.watchers;
        if j :| j in walks && Reaches(walks[j], ix, dir, name) {
          assert Reaches(walks'[j], ix, dir, name);
        }
      }
    }
  }

  /** A watch fails: its folder and all below it are dropped, and lost. */
  lemma WatchLost(f: Files, t: Tree, ix: nat, walks: map<nat, Walk>, dir: Path, o: Open)
    requires WholeTree(f, t, ix, walks, o)
    ensures WholeTree(f, t.(watchers := t.watchers - Below(t, dir)), ix, walks, o.(lost := o.lost + {dir}))
  {
    var t' := t.(watchers := t.watchers - Below(t, dir));
    var o' := o.(lost := o.lost + {dir});
    if !IsFailing(ix, walks) {
      forall q | q in t'.watchers && q != t.root && !Same(f, t', q)
        ensures exists r :: r <= q && GoesSoon(f, t', ix, walks, o', r)
      {
        var r :| r <= q && GoesSoon(f, t, ix, walks, o, r);
        assert dir <= r ==> dir <= q;
        assert GoesSoon(f, t', ix, walks, o', r);
      }
      forall d, name | Wanted(f, t', d, name) ensures Settled(f, t', ix, walks, o', d, name) {
        hide Listed, Watchable, Reaches;
        assert Wanted(f, t, d, name);
        assert Settled(f, t, ix, walks, o, d, name);
        if q :| q in o.lost && q <= d + [name] { assert q in o'.lost; }
        assert dir in o'.lost;
        if r :| r <= d && GoesSoon(f, t, ix, walks, o, r) {
          assert dir <= r ==> dir <= d + [name];
          assert !(dir <= r) ==> GoesSoon(f, t', ix, walks, o', r);
        }
      }
    }
  }

  lemma WalkOf(limit: nat, s: State, k: nat)
    requires Inv(limit, s) && k in s.walks
    ensures WalkFits(s.trees, s.walks[k])
  {
    hide TreesFit, WalkFits;
  }

  lemma NextIsNew(limit: nat, s: State)
    requires Inv(limit, s)
    ensures s.nextWalk !in s.walks
  {
    hide TreesFit, WalkFits;
  }

  lemma LstatIsNext(limit: nat, s: State, k: nat, st: Stat, os: OsWatch)
    requires k in s.walks && s.walks[k].Lstat? && s.walks[k].tree < |s.trees|
    ensures var w := s.walks[k];
            Next(limit, s, LstatDone(k, st, os)) ==
              if st == Fails then s.(walks := s.walks[k := Failing(w.tree)])
              else
                var (x, scan) := Considered(limit, w.tree, At(s, w.tree), w.path, w.depth, st, os);
                var now := if scan then Readdir(w.tree, w.path, w.depth, w.stack) else Loop(w.tree, w.stack);
                With(s, w.tree, x).(walks := s.walks[k := now])
  {
    hide Considered;
  }

  lemma ChangedIsNext(limit: nat, s: State, h: Handle, name: Option<string>)
    requires h in s.pool.made && s.pool.made[h].tree < |s.trees|
    ensures var m := s.pool.made[h];
            Next(limit, s, Changed(h, name)) ==
              if s.trees[m.tree].closed || name == None then s
              else Begin(s, Consider(s.trees[m.tree], m.tree, m.dir + [name.value], m.depth + 1, []))
  {
    hide Consider;
  }

  // --- Each event ------------------------------------------------------------------------------------

  lemma TurnIn(f: Files, t: Tree, ix: nat, stack: seq<Frame>)
    requires StackFits(t.root, stack) && !t.closed && stack != []
    ensures var w := Turn(t, ix, stack).value; w.tree == ix && NothingLost(f, t, ix, Loop(ix, stack), w)
  {
    var top := stack[0];
    assert Deep(t.root, top.dir, top.depth);
    if top.left == [] {
      forall dir, name | InStack(stack, dir, name) ensures InStack(stack[1..], dir, name) {
        var i :| 0 <= i < |stack| && stack[i].dir == dir && Entry(name, true) in stack[i].left;
        assert stack[1..][i - 1] == stack[i];
      }
    } else {
      var e := top.left[0];
      var rest := [top.(left := top.left[1..])] + stack[1..];
      forall dir, name | InStack(stack, dir, name) && !(dir == top.dir && e == Entry(name, true))
        ensures InStack(rest, dir, name)
      {
        var i :| 0 <= i < |stack| && stack[i].dir == dir && Entry(name, true) in stack[i].left;
        assert top.left == [e] + top.left[1..];
        assert rest[i].dir == dir && Entry(name, true) in rest[i].left;
      }
    }
  }

  /** What a look at a path comes to, unless it closes the tree. */
  lemma LookIs(f: Files, limit: nat, s: State, ix: nat, w: Walk)
    requires ix < |s.trees| && w.Lstat? && f.stat(w.path) != Fails && w.path != s.trees[ix].root && !s.trees[ix].closed
    ensures var t := s.trees[ix];
            var (x, scan) := Considered(limit, ix, At(s, ix), w.path, w.depth, f.stat(w.path), f.watch(w.path));
            !x.tree.closed ==>
              if Same(f, t, w.path) then x.tree == t && !scan
              else
                var gone := if w.path in t.watchers then Below(t, w.path) else {};
                x.tree == Seen(f, t, gone, w.path, s.pool.nextHandle, w.depth)
                  && (scan <==> Watchable(f, t.dev, w.path))
  {
    hide Below;
    assert s.trees[ix].watchers - {} == s.trees[ix].watchers;
  }

  lemma PathIsBelow(t: Tree, p: Path)
    requires p in t.watchers && p != t.root
    ensures p in Below(t, p)
  {
  }

  /** A walk of the tree after its `lstat`. */
  lemma LstatWhole(f: Files, limit: nat, s: State, ix: nat, k: nat, o: Open)
    requires Inv(limit, s) && Whole(f, s, ix, o) && ix < |s.trees| && !s.trees[ix].closed
    requires k in s.walks && s.walks[k].Lstat? && s.walks[k].tree == ix
    ensures var p := s.walks[k].path; Whole(f, Next(limit, s, LstatDone(k, f.stat(p), f.watch(p))), ix, o)
  {
    hide Inv, WholeTree, Next, Considered, Watchable, Same, Seen, Below;
    var t := s.trees[ix];
    var w := s.walks[k];
    var p := w.path;
    WalkOf(limit, s, k);
    LstatIsNext(limit, s, k, f.stat(p), f.watch(p));
    assert p != t.root && t.root <= p;
    if f.stat(p) == Fails {
      WalkFails(f, t, ix, s.walks, k, o);
    } else {
      LookIs(f, limit, s, ix, w);
      if Same(f, t, p) {
        LookedAndSame(f, t, ix, w);
        WalkGoesOn(f, t, ix, s.walks, k, Loop(ix, w.stack), o);
      } else {
        if p in t.watchers { PathIsBelow(t, p); }
        LookedAt(f, t, ix, s.walks, k, if p in t.watchers then Below(t, p) else {}, s.pool.nextHandle, o);
      }
    }
  }

  lemma LookedAndSame(f: Files, t: Tree, ix: nat, w: Walk)
    requires w.Lstat? && w.tree == ix && Same(f, t, w.path)
    ensures NothingLost(f, t, ix, w, Loop(ix, w.stack))
  {
    hide Watchable, Enters;
  }

  /** A walk or an event of another tree leaves this one as it is. */
  lemma LstatOther(f: Files, limit: nat, s: State, ix: nat, k: nat, st: Stat, os: OsWatch, o: Open)
    requires Inv(limit, s) && Whole(f, s, ix, o) && ix < |s.trees| && !s.trees[ix].closed
    requires k in s.walks && s.walks[k].Lstat? && s.walks[k].tree != ix
    ensures Whole(f, Next(limit, s, LstatDone(k, st, os)), ix, o)
  {
    hide Inv, WholeTree, Considered, Next;
    WalkOf(limit, s, k);
    LstatIsNext(limit, s, k, st, os);
    var t := Next(limit, s, LstatDone(k, st, os));
    WalkGoesOn(f, s.trees[ix], ix, s.walks, k, t.walks[k], o);
  }

  lemma LstatKeepsWhole(f: Files, limit: nat, s: State, ix: nat, k: nat, st: Stat, os: OsWatch, o: Open)
    requires Inv(limit, s) && Whole(f, s, ix, o) && Answers(f, s, ix, LstatDone(k, st, os))
    requires ix < |s.trees| && !s.trees[ix].closed && k in s.walks && s.walks[k].Lstat?
    ensures Whole(f, Next(limit, s, LstatDone(k, st, os)), ix, o)
  {
    hide Next, Inv, Whole;
    if s.walks[k].tree == ix {
      LstatWhole(f, limit, s, ix, k, o);
    } else {
      LstatOther(f, limit, s, ix, k, st, os, o);
    }
  }

  lemma ReaddirKeepsWhole(f: Files, limit: nat, s: State, ix: nat, k: nat, listing: Listing, o: Open)
    requires Whole(f, s, ix, o) && Answers(f, s, ix, ReaddirDone(k, listing))
    requires ix < |s.trees| && !s.trees[ix].closed && k in s.walks && s.walks[k].Readdir?
    ensures Whole(f, Next(limit, s, ReaddirDone(k, listing)), ix, o)
  {
    var t := s.trees[ix];
    var w := s.walks[k];
    var now := Next(limit, s, ReaddirDone(k, listing)).walks[k];
    hide WholeTree, NothingLost, Reaches;
    if w.tree == ix && listing.ListFails? {
      WalkFails(f, t, ix, s.walks, k, o);
    } else {
      if w.tree == ix { ListingReaches(f, t, ix, w, listing); }
      WalkGoesOn(f, t, ix, s.walks, k, now, o);
    }
  }

  lemma ListingReaches(f: Files, t: Tree, ix: nat, w: Walk, listing: Listing)
    requires w.Readdir? && w.tree == ix && listing == f.list(w.dir) && !listing.ListFails?
    ensures var stack := if listing.Entries? then [Frame(w.dir, w.depth, listing.entries)] + w.stack else w.stack;
            NothingLost(f, t, ix, w, Loop(ix, stack))
  {
    hide Watchable;
    if listing.Entries? {
      var stack := [Frame(w.dir, w.depth, listing.entries)] + w.stack;
      assert stack[0].dir == w.dir && stack[0].left == listing.entries;
      forall dir, name | InStack(w.stack, dir, name) ensures InStack(stack, dir, name) {
        var i :| 0 <= i < |w.stack| && w.stack[i].dir == dir && Entry(name, true) in w.stack[i].left;
        assert stack[i + 1] == w.stack[i];
      }
      forall name | Listed(f, w.dir, name) ensures InStack(stack, w.dir, name) {
        assert Entry(name, true) in stack[0].left;
      }
    }
  }

  lemma GoesOnKeepsWhole(f: Files, limit: nat, s: State, ix: nat, k: nat, o: Open)
    requires Inv(limit, s) && Whole(f, s, ix, o) && ix < |s.trees| && !s.trees[ix].closed && k in s.walks
    ensures Whole(f, Next(limit, s, GoesOn(k)), ix, o)
  {
    hide Inv, WholeTree, Next;
    WalkOf(limit, s, k);
    var w := s.walks[k];
    if w.Lstat? || w.Readdir? {
      StaysPut(limit, s, k);
    } else if w.Failing? {
      FailingGoes(f, limit, s, ix, k, o);
    } else {
      LoopGoes(f, s.trees, s.walks, ix, k, o);
      LoopIsNext(limit, s, k);
      hide Turned, WalkFits;
    }
  }

  lemma StaysPut(limit: nat, s: State, k: nat)
    requires k in s.walks && (s.walks[k].Lstat? || s.walks[k].Readdir?)
    ensures Next(limit, s, GoesOn(k)) == s
  {
  }

  lemma FailingGoes(f: Files, limit: nat, s: State, ix: nat, k: nat, o: Open)
    requires Whole(f, s, ix, o) && ix < |s.trees| && !s.trees[ix].closed && k in s.walks
    requires s.walks[k].Failing? && s.walks[k].tree < |s.trees|
    ensures Whole(f, Next(limit, s, GoesOn(k)), ix, o)
  {
    hide WholeTree;
    if s.walks[k].tree != ix {
      WalkEnds(f, s.trees[ix], ix, s.walks, k, o);
    }
  }

  /** The walks after a turn of walk `k`. */
  function Turned(trees: seq<Tree>, walks: map<nat, Walk>, k: nat): map<nat, Walk>
    requires k in walks && walks[k].Loop? && walks[k].tree < |trees|
  {
    match Turn(trees[walks[k].tree], walks[k].tree, walks[k].stack)
    case None => walks - {k}
    case Some(v) => walks[k := v]
  }

  lemma LoopIsNext(limit: nat, s: State, k: nat)
    requires k in s.walks && s.walks[k].Loop? && s.walks[k].tree < |s.trees|
    ensures Next(limit, s, GoesOn(k)) == s.(walks := Turned(s.trees, s.walks, k))
  {
    hide Turn;
  }

  lemma LoopGoes(f: Files, trees: seq<Tree>, walks: map<nat, Walk>, ix: nat, k: nat, o: Open)
    requires ix < |trees| && !trees[ix].closed && WholeTree(f, trees[ix], ix, walks, o)
    requires k in walks && walks[k].Loop? && WalkFits(trees, walks[k])
    ensures WholeTree(f, trees[ix], ix, Turned(trees, walks, k), o)
  {
    hide WholeTree, NothingLost;
    var w := walks[k];
    if w.stack == [] {
      WalkEnds(f, trees[ix], ix, walks, k, o);
    } else {
      if w.tree == ix { TurnIn(f, trees[ix], ix, w.stack); }
      WalkGoesOn(f, trees[ix], ix, walks, k, Turn(trees[w.tree], w.tree, w.stack).value, o);
    }
  }

  lemma ChangedKeepsWhole(f: Files, limit: nat, s: State, ix: nat, h: Handle, name: Option<string>, o: Open)
    requires Inv(limit, s) && Whole(f, s, ix, o) && ix < |s.trees| && !s.trees[ix].closed && h in s.pool.made
    ensures Whole(f, Next(limit, s, Changed(h, name)), ix, Onwards(s, ix, o, Changed(h, name)))
  {
    hide Inv, WholeTree, Consider, Next, Deep, TreeFits, Looks;
    var m := s.pool.made[h];
    MadeOf(limit, s, h);
    NextIsNew(limit, s);
    ChangedIsNext(limit, s, h, name);
    TreeOf(limit, s, ix);
    if !s.trees[m.tree].closed && name.Some? {
      var now := Consider(s.trees[m.tree], m.tree, m.dir + [name.value], m.depth + 1, []);
      ConsiderLooks(s.trees[m.tree], m.tree, m, name.value);
      WalkBegins(f, s.trees[ix], ix, s.walks, s.nextWalk, now, o, Onwards(s, ix, o, Changed(h, name)));
    }
  }

  lemma TreeOf(limit: nat, s: State, ix: nat)
    requires Inv(limit, s) && ix < |s.trees|
    ensures TreeFits(s.trees[ix])
  {
    hide TreeFits, PoolFits;
  }

  lemma ConsiderLooks(t: Tree, ix: nat, m: Made, name: string)
    requires Deep(t.root, m.dir, m.depth) && !t.closed
    ensures var p := m.dir + [name];
            Looks(Consider(t, ix, p, m.depth + 1, []), ix, p) || |p| - |t.root| >= MAX_DEPTH
  {
  }

  lemma StartIsNext(limit: nat, s: State, root: Path, dev: nat, id: nat, os: OsWatch)
    ensures var n := |s.trees|;
            var (x, added) := Add(limit, n, Both(s.pool, Tree(root, dev, map[], false, 0)), root, 0, id, os);
            Next(limit, s, Start(root, dev, id, os)) ==
              if added == Throws then s
              else Begin(s.(pool := x.pool, trees := s.trees + [x.tree]), Readdir(n, root, 0, []))
  {
    hide Add;
  }

  /** A tree that starts and is open watches its root, and has made a watch for that alone. */
  lemma StartWatches(limit: nat, pool: Pool, n: nat, root: Path, dev: nat, id: nat, os: OsWatch)
    ensures var (x, added) := Add(limit, n, Both(pool, Tree(root, dev, map[], false, 0)), root, 0, id, os);
            added != Throws ==>
              && (!x.tree.closed ==> x.tree.watchers.Keys == {root} && x.tree.root == root)
              && (forall h :: h in x.pool.made ==>
                    x.pool.made[h] == Made(n, root, 0) || (h in pool.made && x.pool.made[h] == pool.made[h]))
  {
  }

  lemma StartKeepsWhole(f: Files, limit: nat, s: State, ix: nat, root: Path, dev: nat, id: nat, os: OsWatch, o: Open)
    requires Inv(limit, s) && Whole(f, s, ix, o)
    ensures Whole(f, Next(limit, s, Start(root, dev, id, os)), ix, o)
  {
    hide Inv, Next, Add, WholeTree, TreeFits;
    var n := |s.trees|;
    var x := Add(limit, n, Both(s.pool, Tree(root, dev, map[], false, 0)), root, 0, id, os);
    StartIsNext(limit, s, root, dev, id, os);
    StartWatches(limit, s.pool, n, root, dev, id, os);
    NextIsNew(limit, s);
    if x.1 != Throws {
      if ix < n && !s.trees[ix].closed {
        TreeOf(limit, s, ix);
        WalkBegins(f, s.trees[ix], ix, s.walks, s.nextWalk, Readdir(n, root, 0, []), o, o);
      } else if ix == n && !x.0.tree.closed {
        FirstWalk(f, x.0.tree, n, s.walks, s.nextWalk, Readdir(n, root, 0, []), o);
      }
    }
  }

  /** A new tree watches its root, and its first walk is about to list that. */
  lemma FirstWalk(f: Files, t: Tree, ix: nat, walks: map<nat, Walk>, k: nat, first: Walk, o: Open)
    requires first == Readdir(ix, t.root, 0, []) && t.watchers.Keys == {t.root}
    ensures WholeTree(f, t, ix, walks[k := first], o)
  {
    hide Watchable, Listed;
    var walks' := walks[k := first];
    assert forall p :: p in t.watchers ==> p in t.watchers.Keys;
    forall dir, name | Wanted(f, t, dir, name) ensures Ahead(ix, walks', dir, name) {
      assert Reaches(walks'[k], ix, dir, name);
    }
  }

  lemma NextKeepsWhole(f: Files, limit: nat, s: State, ix: nat, e: Event, o: Open)
    requires Inv(limit, s) && Whole(f, s, ix, o) && Answers(f, s, ix, e)
    ensures Whole(f, Next(limit, s, e), ix, Onwards(s, ix, o, e))
  {
    hide Whole, Inv, Next, Answers;
    if e.Start? {
      StartKeepsWhole(f, limit, s, ix, e.root, e.dev, e.id, e.os, o);
    } else if ix < |s.trees| {
      if s.trees[ix].closed {
        ClosedStays(limit, s, ix, e);
        ClosedIsWhole(f, Next(limit, s, e), ix, Onwards(s, ix, o, e));
      } else {
        StepKeepsWhole(f, limit, s, ix, e, o);
      }
    } else {
      NotYet(limit, s, e);
      ClosedIsWhole(f, Next(limit, s, e), ix, Onwards(s, ix, o, e));
    }
  }

  /** Only a start makes a tree. */
  lemma NotYet(limit: nat, s: State, e: Event)
    requires !e.Start?
    ensures |Next(limit, s, e).trees| == |s.trees|
  {
    hide Considered, Turn, Closed, Failed, Dropped;
  }

  lemma ClosedIsWhole(f: Files, s: State, ix: nat, o: Open)
    requires ix < |s.trees| ==> s.trees[ix].closed
    ensures Whole(f, s, ix, o)
  {
  }

  lemma ClosedStays(limit: nat, s: State, ix: nat, e: Event)
    requires Inv(limit, s) && ix < |s.trees| && s.trees[ix].closed
    ensures ix < |Next(limit, s, e).trees| && Next(limit, s, e).trees[ix].closed
  {
    assert TreeFits(s.trees[ix]);
    StaysClosed(limit, s, ix, e);
    hide Next;
  }

  lemma StepKeepsWhole(f: Files, limit: nat, s: State, ix: nat, e: Event, o: Open)
    requires Inv(limit, s) && Whole(f, s, ix, o) && Answers(f, s, ix, e) && ix < |s.trees| && !s.trees[ix].closed
    requires !e.Start?
    ensures Whole(f, Next(limit, s, e), ix, Onwards(s, ix, o, e))
  {
    hide WholeTree, Inv, Considered, Turn, Consider, Dropped;
    match e
    case Changed(h, name) => if h in s.pool.made { ChangedKeepsWhole(f, limit, s, ix, h, name, o); }
    case WatchError(h) => if h in s.pool.made { ErrorKeepsWhole(f, limit, s, ix, h, o); }
    case LstatDone(k, st, os) =>
      if k in s.walks && s.walks[k].Lstat? { LstatKeepsWhole(f, limit, s, ix, k, st, os, o); }
    case ReaddirDone(k, listing) =>
      if k in s.walks && s.walks[k].Readdir? { ReaddirKeepsWhole(f, limit, s, ix, k, listing, o); }
    case GoesOn(k) => if k in s.walks { GoesOnKeepsWhole(f, limit, s, ix, k, o); }
    case Closes(i) =>
  }

  lemma ErrorKeepsWhole(f: Files, limit: nat, s: State, ix: nat, h: Handle, o: Open)
    requires Inv(limit, s) && Whole(f, s, ix, o) && ix < |s.trees| && !s.trees[ix].closed && h in s.pool.made
    ensures Whole(f, Next(limit, s, WatchError(h)), ix, Onwards(s, ix, o, WatchError(h)))
  {
    hide WholeTree, Inv, Below;
    var m := s.pool.made[h];
    if m.tree == ix {
      WatchLost(f, s.trees[ix], ix, s.walks, m.dir, o);
    }
  }

  /**
   While the files stay as they are: through every interleaving with events, watch errors and other trees,
   what should be watched is, or lies ahead of a walk, or is due an event, or below a folder whose watch
   failed; and what is watched and is not what it was will be dropped.
   */
  lemma {:induction false} EveryRunWhole(f: Files, limit: nat, s: State, ix: nat, o: Open, es: seq<Event>)
    requires Inv(limit, s) && Whole(f, s, ix, o) && AllAnswered(f, limit, s, ix, es)
    ensures Whole(f, Exec(limit, s, es), ix, OnwardsAll(limit, s, ix, o, es))
    decreases |es|
  {
    hide Inv, Whole, Next, Answers, Onwards;
    if es != [] {
      NextKeeps(limit, s, es[0]);
      NextKeepsWhole(f, limit, s, ix, es[0], o);
      EveryRunWhole(f, limit, Next(limit, s, es[0]), ix, Onwards(s, ix, o, es[0]), es[1..]);
    }
  }

  // --- Not watched in part -----------------------------------------------------------------------------

  /** A folder that listing finds from the root: no link, no other device, not too deep, none refused. */
  ghost predicate Findable(f: Files, t: Tree, p: Path)
    decreases |p|
  {
    p == t.root
    || (&& |p| > |t.root| && |p| - |t.root| < MAX_DEPTH
        && Listed(f, p[..|p| - 1], p[|p| - 1]) && Watchable(f, t.dev, p) && Findable(f, t, p[..|p| - 1]))
  }

  ghost predicate NoneWalks(s: State, ix: nat) {
    forall k :: k in s.walks ==> s.walks[k].tree != ix
  }

  lemma NoneGoesSoon(f: Files, t: Tree, s: State, ix: nat, o: Open)
    requires NoneWalks(s, ix) && o.due == {}
    ensures forall q :: !GoesSoon(f, t, ix, s.walks, o, q)
  {
    hide Same;
    assert forall q :: !DueAt(ix, s.walks, o, q);
  }

  lemma {:induction false} FindableIsWatched(f: Files, s: State, ix: nat, o: Open, p: Path)
    requires ix < |s.trees| && !s.trees[ix].closed && TreeFits(s.trees[ix]) && NoneWalks(s, ix) && o.due == {}
    requires WholeTree(f, s.trees[ix], ix, s.walks, o) && Findable(f, s.trees[ix], p)
    ensures p in s.trees[ix].watchers || BelowLost(o, p)
    decreases |p|
  {
    var t := s.trees[ix];
    if p != t.root {
      var dir, name := p[..|p| - 1], p[|p| - 1];
      FindableIsWatched(f, s, ix, o, dir);
      assert dir + [name] == p && dir <= p;
      hide Watchable, Listed, Same;
      if dir in t.watchers {
        assert Wanted(f, t, dir, name);
        assert !Ahead(ix, s.walks, dir, name);
        assert !IsFailing(ix, s.walks);
        NoneGoesSoon(f, t, s, ix, o);
        assert Settled(f, t, ix, s.walks, o, dir, name);
      } else {
        var q :| q in o.lost && q <= dir;
        assert q <= p;
      }
    }
  }

  lemma WatchedIsSame(f: Files, s: State, ix: nat, o: Open, p: Path)
    requires ix < |s.trees| && NoneWalks(s, ix) && o.due == {}
    requires WholeTree(f, s.trees[ix], ix, s.walks, o) && p in s.trees[ix].watchers && p != s.trees[ix].root
    ensures Same(f, s.trees[ix], p)
  {
    hide Same, Wanted, Settled;
    assert !IsFailing(ix, s.walks);
    NoneGoesSoon(f, s.trees[ix], s, ix, o);
  }

  /**
   A tree settles: whatever the files did before, if from some state of it on they stay as they are, and
   for all it is wrong about then an event or a walk is still to come, then once these have come and no walk of
   an open tree is left, it watches each folder that can be found from its root, but for those at or below
   one whose watch failed since, and watches nothing that is not the folder it took it for.
   */
  lemma Settles(f: Files, limit: nat, before: seq<Event>, ix: nat, due: set<Path>, es: seq<Event>)
    requires var s := Exec(limit, Init(), before);
             Whole(f, s, ix, Open(due, {})) && AllAnswered(f, limit, s, ix, es)
             && OnwardsAll(limit, s, ix, Open(due, {}), es).due == {}
    ensures var s := Exec(limit, Init(), before);
            var o := OnwardsAll(limit, s, ix, Open(due, {}), es);
            var s' := Exec(limit, s, es);
            ix < |s'.trees| && !s'.trees[ix].closed && NoneWalks(s', ix) ==>
              && (forall p :: Findable(f, s'.trees[ix], p) ==> p in s'.trees[ix].watchers || BelowLost(o, p))
              && (forall p :: p in s'.trees[ix].watchers && p != s'.trees[ix].root ==> Same(f, s'.trees[ix], p))
  {
    var s := Exec(limit, Init(), before);
    EveryRun(limit, Init(), before);
    EveryRun(limit, s, es);
    EveryRunWhole(f, limit, s, ix, Open(due, {}), es);
    var o := OnwardsAll(limit, s, ix, Open(due, {}), es);
    var s' := Exec(limit, s, es);
    if ix < |s'.trees| && !s'.trees[ix].closed && NoneWalks(s', ix) {
      var t := s'.trees[ix];
      assert TreeFits(t);
      forall p | Findable(f, t, p) ensures p in t.watchers || BelowLost(o, p) { FindableIsWatched(f, s', ix, o, p); }
      forall p | p in t.watchers && p != t.root ensures Same(f, t, p) { WatchedIsSame(f, s', ix, o, p); }
    }
  }
}
