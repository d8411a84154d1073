/**
 The folder-tree watcher (apps/server/src/watch.ts, `createFolderTreeWatch`): one operating-system
 watch per folder, found by asynchronous walks, any number of trees sharing one watch budget. A path
 is its components, so `dir + sep` being a string prefix is `dir` being a component prefix.
 */
module FolderTree {
  import opened Common

  const MAX_DEPTH: nat := 256

  type Path = seq<string>
  type Handle = nat

  datatype Watch = Watch(handle: Handle, id: nat, depth: nat)

  /** One tree's variables. `errors` counts its calls of `onError`. */
  datatype Tree = Tree(root: Path, dev: nat, watchers: map<Path, Watch>, closed: bool, errors: nat)

  /** What a watch was made for; its callback remembers it. */
  datatype Made = Made(tree: nat, dir: Path, depth: nat)

  /**
   What all trees share: the factory's `used`, and the operating system's side, which watches are
   open and what each watch ever made was made for.
   */
  datatype Pool = Pool(used: int, open: set<Handle>, made: map<Handle, Made>, nextHandle: Handle)

  datatype Both = Both(pool: Pool, tree: Tree)

  /** What `fs.watch` does: SKIPPED has the codes of a folder that went or may not be read. */
  datatype OsWatch = Opens | SkippedError | OtherError
  datatype Added = Yes | No | Throws
  datatype Stat = Skipped | Fails | Found(isDir: bool, dev: nat, id: nat)

  /** The watches of `gone` are closed and forgotten. */
  function Drop(x: Both, gone: set<Path>): Both
    requires gone <= x.tree.watchers.Keys
  {
    var handles := set p | p in gone :: x.tree.watchers[p].handle;
    Both(x.pool.(used := x.pool.used - |gone|, open := x.pool.open - handles),
         x.tree.(watchers := x.tree.watchers - gone))
  }

  function Unwatched(x: Both, dir: Path): Both {
    if dir in x.tree.watchers then Drop(x, {dir}) else x
  }

  function Closed(x: Both): Both {
    var y := Drop(x, x.tree.watchers.Keys);
    y.(tree := y.tree.(closed := true))
  }

  function Failed(x: Both): Both {
    if x.tree.closed then x
    else var y := Closed(x); y.(tree := y.tree.(errors := y.tree.errors + 1))
  }

  /** The watched folders at or below `dir`, never the root. */
  function Below(t: Tree, dir: Path): set<Path> {
    set d | d in t.watchers.Keys && d != t.root && dir <= d
  }

  function Dropped(x: Both, dir: Path): Both {
    Drop(x, Below(x.tree, dir))
  }

  /** A watch opens: what it was made for is remembered, and the folder and `used` are counted. */
  function Opened(ix: nat, x: Both, dir: Path, depth: nat, id: nat): Both {
    var h := x.pool.nextHandle;
    Both(Pool(x.pool.used + 1, x.pool.open + {h}, x.pool.made[h := Made(ix, dir, depth)], h + 1),
         x.tree.(watchers := x.tree.watchers[dir := Watch(h, id, depth)]))
  }

  function Add(limit: nat, ix: nat, x: Both, dir: Path, depth: nat, id: nat, os: OsWatch): (Both, Added) {
    if x.tree.closed then (x, No)
    else if x.pool.used >= limit then (Failed(x), No)
    else match os
      case Opens => (Opened(ix, x, dir, depth, id), Yes)
      case SkippedError => (x, if dir == x.tree.root then Throws else No)
      case OtherError => if dir == x.tree.root then (x, Throws) else (Failed(x), No)
  }

  /** `consider` after its `lstat`: the new state, and whether the folder is now to be scanned. */
  function Considered(limit: nat, ix: nat, x: Both, path: Path, depth: nat, st: Stat, os: OsWatch): (Both, bool)
    requires st != Fails
  {
    if x.tree.closed then (x, false)
    else if st.Skipped? || !st.isDir || st.dev != x.tree.dev then
      (if path in x.tree.watchers then Dropped(x, path) else x, false)
    else if path in x.tree.watchers && x.tree.watchers[path].id == st.id then (x, false)
    else
      var y := if path in x.tree.watchers then Dropped(x, path) else x;
      var (z, added) := Add(limit, ix, y, path, depth, st.id, os);
      (z, added == Yes)
  }

  lemma DropTwice(x: Both, a: set<Path>, b: set<Path>)
    requires a <= x.tree.watchers.Keys && b <= x.tree.watchers.Keys && a !! b
    ensures b <= Drop(x, a).tree.watchers.Keys
    ensures Drop(Drop(x, a), b) == Drop(x, a + b)
  {
    var once := Drop(x, a);
    assert |a + b| == |a| + |b|;
    assert x.tree.watchers - a - b == x.tree.watchers - (a + b);
    assert forall p | p in b :: once.tree.watchers[p] == x.tree.watchers[p];
  }

  lemma DropNothing(x: Both)
    ensures Drop(x, {}) == x
  {
  }

  /** Unwatching one of those left. */
  lemma DropOneMore(x: Both, all: set<Path>, left: set<Path>, dir: Path)
    requires all <= x.tree.watchers.Keys && left <= all && dir in left
    ensures Unwatched(Drop(x, all - left), dir) == Drop(x, all - (left - {dir}))
  {
    DropTwice(x, all - left, {dir});
    assert all - (left - {dir}) == all - left + {dir};
  }

  // --- The closures -----------------------------------------------------------------------------

  class Factory {
    const limit: nat
    var used: int
    var open: set<Handle>
    var made: map<Handle, Made>
    var nextHandle: Handle

    constructor (limit: nat)
      ensures this.limit == limit && used == 0 && open == {} && made == map[] && nextHandle == 0
    {
      this.limit := limit;
      used, open, made, nextHandle := 0, {}, map[], 0;
    }
  }

  class TreeWatch {
    const ix: nat
    const root: Path
    const dev: nat
    const factory: Factory
    var watchers: map<Path, Watch>
    var closed: bool
    var errors: nat

    constructor (ix: nat, root: Path, dev: nat, factory: Factory)
      ensures this.ix == ix && this.root == root && this.dev == dev && this.factory == factory
      ensures Value().tree == Tree(root, dev, map[], false, 0)
    {
      this.ix, this.root, this.dev, this.factory := ix, root, dev, factory;
      watchers, closed, errors := map[], false, 0;
    }

    function Value(): Both
      reads this, factory
    {
      Both(Pool(factory.used, factory.open, factory.made, factory.nextHandle),
           Tree(root, dev, watchers, closed, errors))
    }

    method Unwatch(dir: Path)
      modifies this, factory
      ensures Value() == Unwatched(old(Value()), dir)
    {
      if dir !in watchers {
        return;
      }
      factory.open := factory.open - {watchers[dir].handle};
      watchers := watchers - {dir};
      factory.used := factory.used - 1;
    }

    /** Both loops over `watchers.keys()`: each of `all` is unwatched, in any order. */
    method UnwatchAll(all: set<Path>)
      requires all <= watchers.Keys
      modifies this, factory
      ensures Value() == Drop(old(Value()), all)
    {
      hide Drop, Unwatched;
      var left := all;
      DropNothing(Value());
      assert all - left == {};
      while left != {}
        invariant left <= all && all <= old(watchers).Keys
        invariant Value() == Drop(old(Value()), all - left)
        decreases left
      {
        var dir :| dir in left;
        DropOneMore(old(Value()), all, left, dir);
        Unwatch(dir);
        left := left - {dir};
      }
      assert all - {} == all;
    }

    method Close()
      modifies this, factory
      ensures Value() == Closed(old(Value()))
    {
      closed := true;
      UnwatchAll(watchers.Keys);
    }

    method Fail()
      modifies this, factory
      ensures Value() == Failed(old(Value()))
    {
      if closed {
        return;
      }
      Close();
      errors := errors + 1;
    }

    method DropTree(dir: Path)
      modifies this, factory
      ensures Value() == Dropped(old(Value()), dir)
    {
      UnwatchAll(set d | d in watchers.Keys && d != root && dir <= d);
    }

    method AddWatch(dir: Path, depth: nat, id: nat, os: OsWatch) returns (added: Added)
      modifies this, factory
      ensures (Value(), added) == Add(factory.limit, ix, old(Value()), dir, depth, id, os)
    {
      if closed {
        return No;
      }
      if factory.used >= factory.limit {
        Fail();
        return No;
      }
      match os
      case Opens =>
        var h := factory.nextHandle;
        factory.nextHandle := h + 1;
        factory.open := factory.open + {h};
        factory.made := factory.made[h := Made(ix, dir, depth)];
        watchers := watchers[dir := Watch(h, id, depth)];
        factory.used := factory.used + 1;
        return Yes;
      case SkippedError =>
        return if dir == root then Throws else No;
      case OtherError =>
        if dir == root {
          return Throws;
        }
        Fail();
        return No;
    }

    method Consider(path: Path, depth: nat, st: Stat, os: OsWatch) returns (scan: bool)
      requires st != Fails
      modifies this, factory
      ensures (Value(), scan) == Considered(factory.limit, ix, old(Value()), path, depth, st, os)
    {
      if closed {
        return false;
      }
      if st.Skipped? || !st.isDir || st.dev != dev {
        if path in watchers {
          DropTree(path);
        }
        return false;
      }
      if path in watchers {
        if watchers[path].id == st.id {
          return false;
        }
        DropTree(path);
      }
      var added := AddWatch(path, depth, st.id, os);
      return added == Yes;
    }
  }
}
