/**
 Runs of the folder-tree watcher (apps/server/src/watch.ts, `createFolderTreeWatch`): any number of
 trees of one factory, every interleaving of their walks, of events and errors of the operating
 system's watches, and of closes. A walk goes on in small steps, one between two places where it
 waits, so other walks' steps come between any two.
 */
module FolderTreeRuns {
  import opened Common
  import opened FolderTree

  datatype Entry = Entry(name: string, isDir: bool)

  /** A `scan` in its loop: the entries still to look at. */
  datatype Frame = Frame(dir: Path, depth: nat, left: seq<Entry>)

  /** Where a walk of a tree is; `stack` has the scans waiting for it, the innermost first. */
  datatype Walk =
    | Lstat(tree: nat, path: Path, depth: nat, stack: seq<Frame>)
    | Readdir(tree: nat, dir: Path, depth: nat, stack: seq<Frame>)
    | Loop(tree: nat, stack: seq<Frame>)
    | Failing(tree: nat)

  datatype State = State(pool: Pool, trees: seq<Tree>, walks: map<nat, Walk>, nextWalk: nat)

  datatype Listing = Entries(entries: seq<Entry>) | Unlisted | ListFails

  datatype Event =
    | Start(root: Path, dev: nat, id: nat, os: OsWatch)
    | Changed(handle: Handle, name: Option<string>)
    | WatchError(handle: Handle)
    | LstatDone(walk: nat, st: Stat, os: OsWatch)
    | ReaddirDone(walk: nat, listing: Listing)
    | GoesOn(walk: nat)
    | Closes(tree: nat)

  function Init(): State {
    State(Pool(0, {}, map[], 0), [], map[], 0)
  }

  function At(s: State, ix: nat): Both
    requires ix < |s.trees|
  {
    Both(s.pool, s.trees[ix])
  }

  function With(s: State, ix: nat, x: Both): State
    requires ix < |s.trees|
  {
    s.(pool := x.pool, trees := s.trees[ix := x.tree])
  }

  /** `consider` up to its `lstat`: a walk that waits for it, or that returns to its caller at once. */
  function Consider(t: Tree, ix: nat, path: Path, depth: nat, stack: seq<Frame>): Walk {
    if t.closed || depth >= MAX_DEPTH then Loop(ix, stack) else Lstat(ix, path, depth, stack)
  }

  /** One turn of the innermost scan's loop, or its return; None when the whole walk is over. */
  function Turn(t: Tree, ix: nat, stack: seq<Frame>): Option<Walk> {
    if stack == [] then None else
    var f := stack[0];
    if f.left == [] || t.closed then Some(Loop(ix, stack[1..])) else
    var rest := [f.(left := f.left[1..])] + stack[1..];
    if f.left[0].isDir then Some(Consider(t, ix, f.dir + [f.left[0].name], f.depth + 1, rest))
    else Some(Loop(ix, rest))
  }

  function Begin(s: State, w: Walk): State {
    s.(walks := s.walks[s.nextWalk := w], nextWalk := s.nextWalk + 1)
  }

  /** One event; one that cannot happen now changes nothing. */
  function Next(limit: nat, s: State, e: Event): State {
    match e
    case Start(root, dev, id, os) =>
      // The factory is called: its tree, its root's watch, and the first walk. It may throw.
      var ix := |s.trees|;
      var (x, added) := Add(limit, ix, Both(s.pool, Tree(root, dev, map[], false, 0)), root, 0, id, os);
      if added == Throws then s
      else Begin(s.(pool := x.pool, trees := s.trees + [x.tree]), Readdir(ix, root, 0, []))
    case Changed(h, name) =>
      // Any watch ever made may call back, whether it is still open or not.
      if h !in s.pool.made then s else
      var m := s.pool.made[h];
      if m.tree >= |s.trees| || s.trees[m.tree].closed || name == None then s
      else Begin(s, Consider(s.trees[m.tree], m.tree, m.dir + [name.value], m.depth + 1, []))
    case WatchError(h) =>
      if h !in s.pool.made then s else
      var m := s.pool.made[h];
      if m.tree >= |s.trees| then s
      else if m.dir == s.trees[m.tree].root then With(s, m.tree, Failed(At(s, m.tree)))
      else With(s, m.tree, Dropped(At(s, m.tree), m.dir))
    case LstatDone(k, st, os) =>
      if k !in s.walks || !s.walks[k].Lstat? || s.walks[k].tree >= |s.trees| then s else
      var w := s.walks[k];
      if st == Fails then s.(walks := s.walks[k := Failing(w.tree)]) else
      var (x, scan) := Considered(limit, w.tree, At(s, w.tree), w.path, w.depth, st, os);
      With(s, w.tree, x).(walks :=
        s.walks[k := if scan then Readdir(w.tree, w.path, w.depth, w.stack) else Loop(w.tree, w.stack)])
    case ReaddirDone(k, listing) =>
      if k !in s.walks || !s.walks[k].Readdir? then s else
      var w := s.walks[k];
      (match listing
       case Entries(es) => s.(walks := s.walks[k := Loop(w.tree, [Frame(w.dir, w.depth, es)] + w.stack)])
       case Unlisted => s.(walks := s.walks[k := Loop(w.tree, w.stack)])
       case ListFails => s.(walks := s.walks[k := Failing(w.tree)]))
    case GoesOn(k) =>
      if k !in s.walks || s.walks[k].tree >= |s.trees| then s else
      var w := s.walks[k];
      if w.Failing? then With(s, w.tree, Failed(At(s, w.tree))).(walks := s.walks - {k})
      else if w.Loop? then
        (match Turn(s.trees[w.tree], w.tree, w.stack)
         case None => s.(walks := s.walks - {k})
         case Some(v) => s.(walks := s.walks[k := v]))
      else s
    case Closes(ix) => if ix < |s.trees| then With(s, ix, Closed(At(s, ix))) else s
  }

  function Exec(limit: nat, s: State, es: seq<Event>): State
    decreases |es|
  {
    if es == [] then s else Exec(limit, Next(limit, s, es[0]), es[1..])
  }

  // --- What every run keeps ---------------------------------------------------------------------

  /** A folder `depth` levels below the root of its tree, and not too deep. */
  ghost predicate Deep(root: Path, dir: Path, depth: nat) {
    root <= dir && depth == |dir| - |root| < MAX_DEPTH
  }

  ghost predicate TreeFits(t: Tree) {
    && (forall p :: p in t.watchers ==> Deep(t.root, p, t.watchers[p].depth))
    && (t.closed ==> t.watchers == map[])
    && (!t.closed ==> t.root in t.watchers)
    && t.errors <= 1 && (t.errors > 0 ==> t.closed)
  }

  /** The open watch of handle `h` is the one its tree keeps for its folder. */
  ghost predicate Kept(pool: Pool, trees: seq<Tree>, h: Handle) {
    && h in pool.made
    && var m := pool.made[h];
       m.tree < |trees| && m.dir in trees[m.tree].watchers && trees[m.tree].watchers[m.dir].handle == h
  }

  /** What tree `ix` keeps for its folders are open watches, made for them. */
  ghost predicate Holds(pool: Pool, ix: nat, t: Tree) {
    forall p :: p in t.watchers ==>
      var w := t.watchers[p];
      w.handle in pool.open && w.handle in pool.made && pool.made[w.handle] == Made(ix, p, w.depth)
  }

  /** A watch ever made was made for a folder of its tree, not too deep. */
  ghost predicate MadeFits(pool: Pool, trees: seq<Tree>, h: Handle)
    requires h in pool.made
  {
    var m := pool.made[h];
    h < pool.nextHandle && m.tree < |trees| && Deep(trees[m.tree].root, m.dir, m.depth)
  }

  ghost predicate AllMade(pool: Pool, trees: seq<Tree>) {
    forall h :: h in pool.made ==> MadeFits(pool, trees, h)
  }

  ghost predicate AllKept(pool: Pool, trees: seq<Tree>) {
    forall h :: h in pool.open ==> Kept(pool, trees, h)
  }

  ghost predicate AllHold(pool: Pool, trees: seq<Tree>) {
    forall i: nat :: i < |trees| ==> Holds(pool, i, trees[i])
  }

  ghost predicate PoolFits(limit: nat, pool: Pool, trees: seq<Tree>) {
    && pool.used == |pool.open| <= limit
    && AllMade(pool, trees)
    && AllKept(pool, trees)
    && AllHold(pool, trees)
  }

  ghost predicate TreesFit(limit: nat, pool: Pool, trees: seq<Tree>) {
    && PoolFits(limit, pool, trees)
    && (forall i :: 0 <= i < |trees| ==> TreeFits(trees[i]))
  }

  ghost predicate StackFits(root: Path, stack: seq<Frame>) {
    forall i :: 0 <= i < |stack| ==> Deep(root, stack[i].dir, stack[i].depth)
  }

  ghost predicate WalkFits(trees: seq<Tree>, w: Walk) {
    w.tree < |trees| &&
    var root := trees[w.tree].root;
    match w
    case Lstat(_, path, depth, stack) => Deep(root, path, depth) && path != root && StackFits(root, stack)
    case Readdir(_, dir, depth, stack) => Deep(root, dir, depth) && StackFits(root, stack)
    case Loop(_, stack) => StackFits(root, stack)
    case Failing(_) => true
  }

  ghost predicate WalksFit(s: State) {
    forall k :: k in s.walks ==> k < s.nextWalk && WalkFits(s.trees, s.walks[k])
  }

  ghost predicate Inv(limit: nat, s: State) {
    TreesFit(limit, s.pool, s.trees) && WalksFit(s)
  }

  /** As many handles as folders: no two folders of a tree share one. */
  lemma {:induction false} HandleCount(pool: Pool, ix: nat, t: Tree, gone: set<Path>)
    requires Holds(pool, ix, t) && gone <= t.watchers.Keys
    ensures |set p | p in gone :: t.watchers[p].handle| == |gone|
  {
    var handles := set p | p in gone :: t.watchers[p].handle;
    if gone == {} {
      assert handles == {};
    } else {
      var d :| d in gone;
      var rest := gone - {d};
      HandleCount(pool, ix, t, rest);
      var fewer := set p | p in rest :: t.watchers[p].handle;
      assert handles == fewer + {t.watchers[d].handle};
      assert t.watchers[d].handle !in fewer;
    }
  }

  /** Dropping some of a tree's watches keeps the pool's books. */
  lemma DropKeeps(limit: nat, pool: Pool, trees: seq<Tree>, ix: nat, gone: set<Path>)
    requires PoolFits(limit, pool, trees) && ix < |trees| && gone <= trees[ix].watchers.Keys
    ensures var x := Drop(Both(pool, trees[ix]), gone); PoolFits(limit, x.pool, trees[ix := x.tree])
  {
    var t := trees[ix];
    var x := Drop(Both(pool, t), gone);
    var trees' := trees[ix := x.tree];
    assert Holds(pool, ix, t);
    HandleCount(pool, ix, t, gone);
    var handles := set p | p in gone :: t.watchers[p].handle;
    assert handles <= pool.open;
    assert |pool.open - handles| == |pool.open| - |handles|;
    forall h | h in x.pool.made ensures MadeFits(x.pool, trees', h) {
      assert MadeFits(pool, trees, h);
    }
    forall h | h in x.pool.open ensures Kept(x.pool, trees', h) {
      assert Kept(pool, trees, h);
    }
    forall i: nat | i < |trees'| ensures Holds(x.pool, i, trees'[i]) {
      assert Holds(pool, i, trees[i]);
      assert forall q :: q in gone ==> pool.made[t.watchers[q].handle] == Made(ix, q, t.watchers[q].depth);
    }
  }

  /** The pool's books do not depend on a tree's flags. */
  lemma FlagsKeep(limit: nat, pool: Pool, trees: seq<Tree>, ix: nat, t: Tree)
    requires PoolFits(limit, pool, trees) && ix < |trees|
    requires t.root == trees[ix].root && t.watchers == trees[ix].watchers
    ensures PoolFits(limit, pool, trees[ix := t])
  {
    var trees' := trees[ix := t];
    forall h | h in pool.made ensures MadeFits(pool, trees', h) {
      assert MadeFits(pool, trees, h);
    }
    forall h | h in pool.open ensures Kept(pool, trees', h) {
      assert Kept(pool, trees, h);
    }
    forall i: nat | i < |trees'| ensures Holds(pool, i, trees'[i]) {
      assert Holds(pool, i, trees[i]);
    }
  }

  lemma ClosedKeeps(limit: nat, pool: Pool, trees: seq<Tree>, ix: nat)
    requires TreesFit(limit, pool, trees) && ix < |trees|
    ensures var x := Closed(Both(pool, trees[ix])); TreesFit(limit, x.pool, trees[ix := x.tree])
    ensures var x := Failed(Both(pool, trees[ix])); TreesFit(limit, x.pool, trees[ix := x.tree])
  {
    hide PoolFits;
    var t := trees[ix];
    assert TreeFits(t);
    var x := Drop(Both(pool, t), t.watchers.Keys);
    DropKeeps(limit, pool, trees, ix, t.watchers.Keys);
    assert x.tree.watchers == map[];
    var closed := x.tree.(closed := true);
    FlagsKeep(limit, x.pool, trees[ix := x.tree], ix, closed);
    assert trees[ix := x.tree][ix := closed] == trees[ix := closed];
    if t.closed {
      assert trees[ix := t] == trees;
    } else {
      var failed := closed.(errors := t.errors + 1);
      FlagsKeep(limit, x.pool, trees[ix := x.tree], ix, failed);
      assert trees[ix := x.tree][ix := failed] == trees[ix := failed];
    }
  }

  lemma DroppedKeeps(limit: nat, pool: Pool, trees: seq<Tree>, ix: nat, dir: Path)
    requires TreesFit(limit, pool, trees) && ix < |trees|
    ensures var x := Dropped(Both(pool, trees[ix]), dir); TreesFit(limit, x.pool, trees[ix := x.tree])
  {
    hide PoolFits;
    assert TreeFits(trees[ix]);
    DropKeeps(limit, pool, trees, ix, Below(trees[ix], dir));
  }

  lemma HandleIsNew(limit: nat, pool: Pool, trees: seq<Tree>)
    requires PoolFits(limit, pool, trees)
    ensures pool.nextHandle !in pool.made && pool.nextHandle !in pool.open
  {
    var h := pool.nextHandle;
    assert h in pool.made ==> MadeFits(pool, trees, h);
    assert h in pool.open ==> Kept(pool, trees, h);
  }

  ghost predicate NewFolder(pool: Pool, trees: seq<Tree>, ix: nat, dir: Path, depth: nat) {
    && ix < |trees| && Deep(trees[ix].root, dir, depth) && dir !in trees[ix].watchers
    && pool.nextHandle !in pool.made && pool.nextHandle !in pool.open
  }

  lemma OpensMade(pool: Pool, trees: seq<Tree>, ix: nat, dir: Path, depth: nat, id: nat)
    requires NewFolder(pool, trees, ix, dir, depth)
    requires AllMade(pool, trees)
    ensures var x := Opened(ix, Both(pool, trees[ix]), dir, depth, id);
            AllMade(x.pool, trees[ix := x.tree])
  {
    var x := Opened(ix, Both(pool, trees[ix]), dir, depth, id);
    forall g | g in x.pool.made ensures MadeFits(x.pool, trees[ix := x.tree], g) {
      assert g != pool.nextHandle ==> MadeFits(pool, trees, g);
    }
  }

  lemma OpensKept(pool: Pool, trees: seq<Tree>, ix: nat, dir: Path, depth: nat, id: nat)
    requires NewFolder(pool, trees, ix, dir, depth)
    requires AllKept(pool, trees)
    ensures var x := Opened(ix, Both(pool, trees[ix]), dir, depth, id);
            AllKept(x.pool, trees[ix := x.tree])
  {
    var x := Opened(ix, Both(pool, trees[ix]), dir, depth, id);
    forall g | g in x.pool.open ensures Kept(x.pool, trees[ix := x.tree], g) {
      assert g != pool.nextHandle ==> Kept(pool, trees, g);
    }
  }

  lemma OpensHolds(pool: Pool, trees: seq<Tree>, ix: nat, dir: Path, depth: nat, id: nat)
    requires NewFolder(pool, trees, ix, dir, depth)
    requires AllHold(pool, trees)
    ensures var x := Opened(ix, Both(pool, trees[ix]), dir, depth, id);
            AllHold(x.pool, trees[ix := x.tree])
  {
    var x := Opened(ix, Both(pool, trees[ix]), dir, depth, id);
    var trees' := trees[ix := x.tree];
    forall i: nat | i < |trees'| ensures Holds(x.pool, i, trees'[i]) {
      assert Holds(pool, i, trees[i]);
    }
  }

  lemma OpensCount(x: Both, ix: nat, dir: Path, depth: nat, id: nat)
    requires x.pool.nextHandle !in x.pool.open && x.pool.used == |x.pool.open|
    ensures var y := Opened(ix, x, dir, depth, id); y.pool.used == |y.pool.open| == x.pool.used + 1
  {
  }

  /** A folder not watched yet, below the root and not too deep, gets its watch. */
  lemma OpensKeeps(limit: nat, pool: Pool, trees: seq<Tree>, ix: nat, dir: Path, depth: nat, id: nat)
    requires PoolFits(limit, pool, trees) && ix < |trees|
    requires Deep(trees[ix].root, dir, depth) && dir !in trees[ix].watchers
    requires !trees[ix].closed && pool.used < limit
    ensures var x := Add(limit, ix, Both(pool, trees[ix]), dir, depth, id, Opens).0;
            PoolFits(limit, x.pool, trees[ix := x.tree])
  {
    HandleIsNew(limit, pool, trees);
    var x := Both(pool, trees[ix]);
    assert NewFolder(pool, trees, ix, dir, depth);
    assert Add(limit, ix, x, dir, depth, id, Opens).0 == Opened(ix, x, dir, depth, id);
    hide AllMade, AllKept, AllHold, NewFolder, Deep, Add, Opened;
    OpensCount(x, ix, dir, depth, id);
    OpensMade(pool, trees, ix, dir, depth, id);
    OpensKept(pool, trees, ix, dir, depth, id);
    OpensHolds(pool, trees, ix, dir, depth, id);
  }

  lemma AddKeeps(limit: nat, pool: Pool, trees: seq<Tree>, ix: nat, dir: Path, depth: nat, id: nat, os: OsWatch)
    requires TreesFit(limit, pool, trees) && ix < |trees|
    requires Deep(trees[ix].root, dir, depth) && dir !in trees[ix].watchers
    ensures var x := Add(limit, ix, Both(pool, trees[ix]), dir, depth, id, os).0;
            TreesFit(limit, x.pool, trees[ix := x.tree])
  {
    hide Kept, Holds, MadeFits;
    assert TreeFits(trees[ix]);
    assert trees[ix := trees[ix]] == trees;
    ClosedKeeps(limit, pool, trees, ix);
    if !trees[ix].closed && pool.used < limit && os == Opens {
      OpensKeeps(limit, pool, trees, ix, dir, depth, id);
    }
  }

  lemma ConsideredKeeps(limit: nat, pool: Pool, trees: seq<Tree>, ix: nat, path: Path, depth: nat, st: Stat,
         os: OsWatch)
    requires TreesFit(limit, pool, trees) && ix < |trees| && st != Fails
    requires Deep(trees[ix].root, path, depth) && path != trees[ix].root
    ensures var x := Considered(limit, ix, Both(pool, trees[ix]), path, depth, st, os).0;
            TreesFit(limit, x.pool, trees[ix := x.tree]) && x.tree.root == trees[ix].root
  {
    hide TreesFit, PoolFits;
    var x := Both(pool, trees[ix]);
    assert trees[ix := trees[ix]] == trees;
    if x.tree.closed {
    } else if st.Skipped? || !st.isDir || st.dev != x.tree.dev {
      DroppedKeeps(limit, pool, trees, ix, path);
    } else if path !in x.tree.watchers {
      AddKeeps(limit, pool, trees, ix, path, depth, st.id, os);
    } else if x.tree.watchers[path].id != st.id {
      DroppedKeeps(limit, pool, trees, ix, path);
      var y := Dropped(x, path);
      assert path in Below(x.tree, path);
      AddKeeps(limit, y.pool, trees[ix := y.tree], ix, path, depth, st.id, os);
      var z := Add(limit, ix, y, path, depth, st.id, os).0;
      assert trees[ix := y.tree][ix := z.tree] == trees[ix := z.tree];
    }
  }

  /** A tree that watches nothing yet, after the others. */
  lemma NewTreeKeeps(limit: nat, pool: Pool, trees: seq<Tree>, t: Tree)
    requires PoolFits(limit, pool, trees) && t.watchers == map[]
    ensures PoolFits(limit, pool, trees + [t])
  {
    forall h | h in pool.made ensures MadeFits(pool, trees + [t], h) {
      assert MadeFits(pool, trees, h);
    }
    forall h | h in pool.open ensures Kept(pool, trees + [t], h) {
      assert Kept(pool, trees, h);
    }
    forall i: nat | i < |trees| + 1 ensures Holds(pool, i, (trees + [t])[i]) {
      if i < |trees| { assert Holds(pool, i, trees[i]); }
    }
  }

  lemma LastOf(trees: seq<Tree>, t: Tree, u: Tree)
    ensures (trees + [t])[|trees|] == t && (trees + [t])[|trees| := u] == trees + [u]
  {
  }

  lemma OneMoreFits(trees: seq<Tree>, t: Tree)
    requires TreeFits(t) && forall i :: 0 <= i < |trees| ==> TreeFits(trees[i])
    ensures forall i :: 0 <= i < |trees| + 1 ==> TreeFits((trees + [t])[i])
  {
  }

  lemma StartFails(limit: nat, pool: Pool, trees: seq<Tree>, t: Tree)
    requires TreesFit(limit, pool, trees) && t == Tree(t.root, t.dev, map[], false, 0)
    ensures var x := Failed(Both(pool, t)); TreesFit(limit, x.pool, trees + [x.tree]) && x.tree.root == t.root
  {
    var x := Failed(Both(pool, t));
    assert t.watchers.Keys == {};
    assert x.pool == pool && x.tree == t.(closed := true, errors := 1);
    OneMoreFits(trees, x.tree);
    hide Failed, PoolFits, TreeFits;
    NewTreeKeeps(limit, pool, trees, x.tree);
  }

  lemma StartOpens(limit: nat, pool: Pool, trees: seq<Tree>, t: Tree, id: nat)
    requires TreesFit(limit, pool, trees) && t == Tree(t.root, t.dev, map[], false, 0) && pool.used < limit
    ensures var x := Opened(|trees|, Both(pool, t), t.root, 0, id); TreesFit(limit, x.pool, trees + [x.tree])
  {
    var x := Opened(|trees|, Both(pool, t), t.root, 0, id);
    NewTreeKeeps(limit, pool, trees, t);
    LastOf(trees, t, x.tree);
    OneMoreFits(trees, x.tree);
    assert Add(limit, |trees|, Both(pool, t), t.root, 0, id, Opens).0 == x;
    hide PoolFits, TreeFits, Opened, Add;
    OpensKeeps(limit, pool, trees + [t], |trees|, t.root, 0, id);
  }

  lemma StartKeeps(limit: nat, pool: Pool, trees: seq<Tree>, root: Path, dev: nat, id: nat, os: OsWatch)
    requires TreesFit(limit, pool, trees)
    ensures var (x, added) := Add(limit, |trees|, Both(pool, Tree(root, dev, map[], false, 0)), root, 0, id, os);
            added != Throws ==> TreesFit(limit, x.pool, trees + [x.tree]) && x.tree.root == root
  {
    hide TreesFit, Failed, Closed;
    var t := Tree(root, dev, map[], false, 0);
    if pool.used >= limit {
      StartFails(limit, pool, trees, t);
    } else if os == Opens {
      StartOpens(limit, pool, trees, t, id);
    }
  }

  /** Walks fit as long as the trees' roots are the same. */
  lemma RootsKeep(s: State, s': State)
    requires WalksFit(s) && s'.walks == s.walks && s'.nextWalk == s.nextWalk && |s.trees| <= |s'.trees|
    requires forall i :: 0 <= i < |s.trees| ==> s'.trees[i].root == s.trees[i].root
    ensures WalksFit(s')
  {
    forall k | k in s'.walks ensures WalkFits(s'.trees, s'.walks[k]) {
      assert WalkFits(s.trees, s.walks[k]);
    }
  }

  lemma TurnFits(trees: seq<Tree>, ix: nat, stack: seq<Frame>)
    requires ix < |trees| && StackFits(trees[ix].root, stack)
    ensures match Turn(trees[ix], ix, stack) case None => true case Some(w) => WalkFits(trees, w)
  {
    if stack != [] {
      assert Deep(trees[ix].root, stack[0].dir, stack[0].depth);
      assert StackFits(trees[ix].root, stack[1..]);
    }
  }

  lemma LstatKeeps(limit: nat, s: State, k: nat, st: Stat, os: OsWatch)
    requires Inv(limit, s) && k in s.walks && s.walks[k].Lstat?
    ensures Inv(limit, Next(limit, s, LstatDone(k, st, os)))
  {
    hide TreesFit;
    var w := s.walks[k];
    assert WalkFits(s.trees, w);
    if st != Fails {
      ConsideredKeeps(limit, s.pool, s.trees, w.tree, w.path, w.depth, st, os);
      var x := Considered(limit, w.tree, At(s, w.tree), w.path, w.depth, st, os).0;
      RootsKeep(s, With(s, w.tree, x));
    }
  }

  lemma GoesOnKeeps(limit: nat, s: State, k: nat)
    requires Inv(limit, s) && k in s.walks
    ensures Inv(limit, Next(limit, s, GoesOn(k)))
  {
    hide TreesFit;
    var w := s.walks[k];
    assert WalkFits(s.trees, w);
    if w.Failing? {
      ClosedKeeps(limit, s.pool, s.trees, w.tree);
      RootsKeep(s, With(s, w.tree, Failed(At(s, w.tree))));
    } else if w.Loop? {
      TurnFits(s.trees, w.tree, w.stack);
    }
  }

  lemma StartStepKeeps(limit: nat, s: State, root: Path, dev: nat, id: nat, os: OsWatch)
    requires Inv(limit, s)
    ensures Inv(limit, Next(limit, s, Start(root, dev, id, os)))
  {
    hide TreesFit;
    StartKeeps(limit, s.pool, s.trees, root, dev, id, os);
    var (x, added) := Add(limit, |s.trees|, Both(s.pool, Tree(root, dev, map[], false, 0)), root, 0, id, os);
    hide Add;
    if added != Throws {
      RootsKeep(s, s.(pool := x.pool, trees := s.trees + [x.tree]));
    }
  }

  lemma WatchErrorKeeps(limit: nat, s: State, h: Handle)
    requires Inv(limit, s) && h in s.pool.made
    ensures Inv(limit, Next(limit, s, WatchError(h)))
  {
    hide TreesFit;
    MadeOf(limit, s, h);
    var m := s.pool.made[h];
    ClosedKeeps(limit, s.pool, s.trees, m.tree);
    DroppedKeeps(limit, s.pool, s.trees, m.tree, m.dir);
    RootsKeep(s, Next(limit, s, WatchError(h)));
  }

  lemma NextKeeps(limit: nat, s: State, e: Event)
    requires Inv(limit, s)
    ensures Inv(limit, Next(limit, s, e))
  {
    hide TreesFit, Considered, Turn, Add;
    match e
    case Start(root, dev, id, os) => StartStepKeeps(limit, s, root, dev, id, os);
    case Changed(h, name) =>
      if h in s.pool.made {
        assert MadeFits(s.pool, s.trees, h) by { MadeOf(limit, s, h); }
      }
    case WatchError(h) => if h in s.pool.made { WatchErrorKeeps(limit, s, h); }
    case LstatDone(k, st, os) => if k in s.walks && s.walks[k].Lstat? { LstatKeeps(limit, s, k, st, os); }
    case ReaddirDone(k, listing) => if k in s.walks { assert WalkFits(s.trees, s.walks[k]); }
    case GoesOn(k) => if k in s.walks { GoesOnKeeps(limit, s, k); }
    case Closes(ix) =>
      if ix < |s.trees| {
        ClosedKeeps(limit, s.pool, s.trees, ix);
        RootsKeep(s, Next(limit, s, e));
      }
  }

  lemma MadeOf(limit: nat, s: State, h: Handle)
    requires Inv(limit, s) && h in s.pool.made
    ensures MadeFits(s.pool, s.trees, h)
  {
  }

  /**
   In every run `used` is the number of open watches and never more than the budget; each open
   watch is the only one of its folder, which is less than 256 levels deep; a closed or failed tree
   holds none; an open one always watches its root; a tree fails at most once.
   */
  lemma {:induction false} EveryRun(limit: nat, s: State, es: seq<Event>)
    requires Inv(limit, s)
    ensures Inv(limit, Exec(limit, s, es))
    decreases |es|
  {
    if es != [] {
      NextKeeps(limit, s, es[0]);
      EveryRun(limit, Next(limit, s, es[0]), es[1..]);
    }
  }

  /** The same, said of the operating system's side alone. */
  lemma WatchesOfEveryRun(limit: nat, es: seq<Event>)
    ensures var s := Exec(limit, Init(), es);
            && s.pool.used == |s.pool.open| <= limit
            && (forall h :: h in s.pool.open ==> h in s.pool.made && s.pool.made[h].tree < |s.trees|)
            && (forall h :: h in s.pool.open ==>
                  var m := s.pool.made[h]; var t := s.trees[m.tree];
                  !t.closed && t.root <= m.dir && |m.dir| - |t.root| < MAX_DEPTH)
            && (forall g, h :: g in s.pool.open && h in s.pool.open && g != h ==>
                  (s.pool.made[g].tree, s.pool.made[g].dir) != (s.pool.made[h].tree, s.pool.made[h].dir))
  {
    EveryRun(limit, Init(), es);
    var s := Exec(limit, Init(), es);
    forall h | h in s.pool.open
      ensures var m := s.pool.made[h]; m.tree < |s.trees| && !s.trees[m.tree].closed
    {
      assert Kept(s.pool, s.trees, h) && MadeFits(s.pool, s.trees, h);
      assert TreeFits(s.trees[s.pool.made[h].tree]);
    }
    forall g, h | g in s.pool.open && h in s.pool.open && g != h
      ensures (s.pool.made[g].tree, s.pool.made[g].dir) != (s.pool.made[h].tree, s.pool.made[h].dir)
    {
      assert Kept(s.pool, s.trees, g) && Kept(s.pool, s.trees, h);
    }
  }

  lemma StaysClosed(limit: nat, s: State, ix: nat, e: Event)
    requires ix < |s.trees| && s.trees[ix].closed && s.trees[ix].watchers == map[]
    ensures ix < |Next(limit, s, e).trees| && Next(limit, s, e).trees[ix] == s.trees[ix]
  {
    hide Closed, Dropped, Below, Add, Turn, Opened;
    match e
    case WatchError(h) =>
      if h in s.pool.made && s.pool.made[h].tree == ix { NothingToDrop(At(s, ix), s.pool.made[h].dir); }
    case Closes(i) => if i == ix { NothingToDrop(At(s, ix), []); }
    case _ =>
  }

  lemma NothingToDrop(x: Both, dir: Path)
    requires x.tree.closed && x.tree.watchers == map[]
    ensures Closed(x).tree == x.tree && Dropped(x, dir).tree == x.tree
  {
    assert Below(x.tree, dir) == {};
  }

  lemma {:induction false} StaysClosedRun(limit: nat, s: State, ix: nat, es: seq<Event>)
    requires ix < |s.trees| && s.trees[ix].closed && s.trees[ix].watchers == map[]
    ensures var s' := Exec(limit, s, es); ix < |s'.trees| && s'.trees[ix] == s.trees[ix]
    decreases |es|
  {
    if es != [] {
      StaysClosed(limit, s, ix, es[0]);
      StaysClosedRun(limit, Next(limit, s, es[0]), ix, es[1..]);
    }
  }

  /** A tree closed or failed stays so, and never watches anything again, whatever is under way. */
  lemma ClosedForGood(limit: nat, before: seq<Event>, after: seq<Event>, ix: nat)
    ensures var s := Exec(limit, Init(), before);
            var s' := Exec(limit, s, after);
            ix < |s.trees| && s.trees[ix].closed ==>
              ix < |s'.trees| && s'.trees[ix] == s.trees[ix] && s'.trees[ix].watchers == map[]
  {
    EveryRun(limit, Init(), before);
    var s := Exec(limit, Init(), before);
    if ix < |s.trees| && s.trees[ix].closed {
      assert TreeFits(s.trees[ix]);
      StaysClosedRun(limit, s, ix, after);
    }
  }

  /**
   What a turn of a walk looks at next: the next entry of the innermost folder if that is listed as a folder itself,
   so no link and no file, it is less than 256 levels deep and its tree is open. Of a closed one it looks at nothing.
   */
  lemma TurnExactly(t: Tree, ix: nat, stack: seq<Frame>)
    ensures Turn(t, ix, stack) == None <==> stack == []
    ensures stack != [] ==>
              var top, w := stack[0], Turn(t, ix, stack).value;
              var goes := top.left != [] && !t.closed;
              var rest := if goes then [top.(left := top.left[1..])] + stack[1..] else stack[1..];
              w == if goes && top.left[0].isDir && top.depth + 1 < 256
                   then Lstat(ix, top.dir + [top.left[0].name], top.depth + 1, rest) else Loop(ix, rest)
  {
  }
}
