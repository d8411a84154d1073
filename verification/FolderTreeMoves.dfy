/**
 Where an event of every change is not enough for a folder tree to be watched whole (apps/server/src/watch.ts,
 `consider`): a folder that is moved away and back.
 */
module FolderTreeMoves {
  import opened Common
  import opened FolderTree
  import opened FolderTreeRuns
  import opened FolderTreeWhole

  lemma ExecCons(limit: nat, s: State, e: Event, rest: seq<Event>)
    ensures Exec(limit, s, [e] + rest) == Exec(limit, Next(limit, s, e), rest)
  {
    assert ([e] + rest)[1..] == rest;
  }

  /** After a walk has looked at its last path and ended: that is dropped, or is what it was. */
  function Dismissed(s: State, k: nat, gone: bool): State
    requires k in s.walks && s.walks[k].Lstat? && s.walks[k].tree < |s.trees|
  {
    var w := s.walks[k];
    With(s, w.tree, if gone then Dropped(At(s, w.tree), w.path) else At(s, w.tree)).(walks := s.walks - {k})
  }

  lemma LooksAndEnds(f: Files, limit: nat, s: State, k: nat, st: Stat, os: OsWatch, rest: seq<Event>)
    requires k in s.walks && s.walks[k].Lstat? && s.walks[k].stack == [] && s.walks[k].tree < |s.trees|
    requires var w := s.walks[k];
             var t := s.trees[w.tree];
             !t.closed && w.path in t.watchers && (st == Skipped || (st == f.stat(w.path) && Same(f, t, w.path)))
    ensures Exec(limit, s, [LstatDone(k, st, os), GoesOn(k)] + rest)
        == Exec(limit, Dismissed(s, k, st == Skipped), rest)
  {
    var w := s.walks[k];
    var e, g := LstatDone(k, st, os), GoesOn(k);
    LookEnds(f, limit, w.tree, At(s, w.tree), w.path, w.depth, st, os);
    hide Next, Considered, Dropped, Same, Exec;
    assert [e, g] + rest == [e] + ([g] + rest);
    ExecCons(limit, s, e, [g] + rest);
    LstatIsNext(limit, s, k, st, os);
    var s1 := Next(limit, s, e);
    ExecCons(limit, s1, g, rest);
    LoopIsNext(limit, s1, k);
    assert s1.walks - {k} == s.walks - {k};
  }

  lemma LookEnds(f: Files, limit: nat, ix: nat, x: Both, path: Path, depth: nat, st: Stat, os: OsWatch)
    requires !x.tree.closed && path in x.tree.watchers
    requires st == Skipped || (st == f.stat(path) && Same(f, x.tree, path))
    ensures st != Fails
    ensures Considered(limit, ix, x, path, depth, st, os) == (if st == Skipped then Dropped(x, path) else x, false)
  {
    hide Below;
  }

  /** A folder `p` that event `h` may name, with a folder `c` in it, both watched and `p` what it was. */
  ghost predicate Nested(f: Files, s: State, ix: nat, h: Handle, p: string, c: string) {
    && ix < |s.trees| && !s.trees[ix].closed && h in s.pool.made && s.pool.made[h].tree == ix
    && var t := s.trees[ix];
       var path := s.pool.made[h].dir + [p];
       path in t.watchers && path != t.root && Same(f, t, path) && path + [c] in t.watchers
  }

  /** `p` is moved away and an event of `c` comes, finding nothing; */
  function Away(s: State, ix: nat, h: Handle, p: string, c: string, os: OsWatch): seq<Event>
    requires h in s.pool.made && ix < |s.trees| && s.pool.made[h].dir + [p] in s.trees[ix].watchers
  {
    var hp := s.trees[ix].watchers[s.pool.made[h].dir + [p]].handle;
    var n := s.nextWalk;
    [Changed(h, Some(p))] + ([Changed(hp, Some(c))] + [LstatDone(n + 1, Skipped, os), GoesOn(n + 1)])
  }

  /** `p` is moved back, and the events of both moves find it. */
  function Back(n: nat, h: Handle, p: string, there: Stat, os: OsWatch): seq<Event> {
    [Changed(h, Some(p))]
    + ([LstatDone(n, there, os), GoesOn(n)] + ([LstatDone(n + 2, there, os), GoesOn(n + 2)] + []))
  }

  /** Then a walk is at `p`, and `c` is not watched. */
  ghost predicate IsAway(f: Files, s: State, s': State, ix: nat, h: Handle, p: string, c: string) {
    && ix < |s.trees| == |s'.trees| && s'.trees == s.trees[ix := s'.trees[ix]] && h in s.pool.made
    && s'.pool.made == s.pool.made && s'.nextWalk == s.nextWalk + 2
    && var m := s.pool.made[h];
       var t := s'.trees[ix];
       var path := m.dir + [p];
       && m.depth + 1 < MAX_DEPTH && s'.walks == s.walks[s.nextWalk := Lstat(ix, path, m.depth + 1, [])]
       && t.root == s.trees[ix].root && t.dev == s.trees[ix].dev && !t.closed
       && path in t.watchers && path != t.root && Same(f, t, path) && path + [c] !in t.watchers
  }

  /** What the events of the two are told. */
  lemma NestedWatches(f: Files, limit: nat, s: State, ix: nat, h: Handle, p: string, c: string)
    requires Inv(limit, s) && Nested(f, s, ix, h, p, c)
    ensures var m := s.pool.made[h];
            var t := s.trees[ix];
            var hp := t.watchers[m.dir + [p]].handle;
            && m.depth + 2 < MAX_DEPTH && t.root <= m.dir + [p]
            && hp in s.pool.made && s.pool.made[hp] == Made(ix, m.dir + [p], m.depth + 1)
    ensures forall k :: k in s.walks ==> k < s.nextWalk
  {
    var path := s.pool.made[h].dir + [p];
    WatchOf(limit, s, ix, path);
    WatchOf(limit, s, ix, path + [c]);
    MadeOf(limit, s, h);
    WalkNumbers(limit, s);
    hide Inv, Same;
  }

  lemma GoesAway(f: Files, limit: nat, s: State, ix: nat, h: Handle, p: string, c: string, os: OsWatch)
    requires Inv(limit, s) && Nested(f, s, ix, h, p, c)
    ensures IsAway(f, s, Exec(limit, s, Away(s, ix, h, p, c, os)), ix, h, p, c)
  {
    hide Inv, Next, Exec, Same, Dropped;
    var t := s.trees[ix];
    var m := s.pool.made[h];
    var path := m.dir + [p];
    var hp := t.watchers[path].handle;
    var n := s.nextWalk;
    NestedWatches(f, limit, s, ix, h, p, c);
    DropsOne(f, s, ix, path, c);
    var look := [LstatDone(n + 1, Skipped, os), GoesOn(n + 1)];
    Appears(limit, s, h, p, [Changed(hp, Some(c))] + look);
    var s1 := Begin(s, Lstat(ix, path, m.depth + 1, []));
    Appears(limit, s1, hp, c, look);
    var s2 := Begin(s1, Lstat(ix, path + [c], m.depth + 2, []));
    AwayEnds(f, limit, s2, n + 1, os);
    var s3 := Dismissed(s2, n + 1, true);
    assert s3.walks == s1.walks;
  }

  lemma AwayEnds(f: Files, limit: nat, s: State, k: nat, os: OsWatch)
    requires k in s.walks && s.walks[k].Lstat? && s.walks[k].stack == [] && s.walks[k].tree < |s.trees|
    requires !s.trees[s.walks[k].tree].closed && s.walks[k].path in s.trees[s.walks[k].tree].watchers
    ensures Exec(limit, s, [LstatDone(k, Skipped, os), GoesOn(k)]) == Dismissed(s, k, true)
  {
    hide Exec, Next, Dropped;
    var look := [LstatDone(k, Skipped, os), GoesOn(k)];
    assert look + [] == look;
    LooksAndEnds(f, limit, s, k, Skipped, os, []);
    NoneLeft(limit, Dismissed(s, k, true));
  }

  lemma ComesBack(f: Files, limit: nat, s: State, s': State, ix: nat, h: Handle, p: string, c: string, os: OsWatch)
    requires IsAway(f, s, s', ix, h, p, c) && s.pool.made[h].tree == ix
    requires forall k :: k in s.walks ==> k < s.nextWalk
    ensures var path := s.pool.made[h].dir + [p];
            var r := Exec(limit, s', Back(s.nextWalk, h, p, f.stat(path), os));
            r.walks == s.walks && r.trees == s'.trees
  {
    hide Next, Exec, Same, Dropped;
    var m := s.pool.made[h];
    var n := s.nextWalk;
    var there := f.stat(m.dir + [p]);
    IsThere(f, s'.trees[ix], m.dir + [p]);
    var first, second := [LstatDone(n, there, os), GoesOn(n)], [LstatDone(n + 2, there, os), GoesOn(n + 2)];
    Appears(limit, s', h, p, first + (second + []));
    var s1 := Begin(s', Lstat(ix, m.dir + [p], m.depth + 1, []));
    LooksAndEnds(f, limit, s1, n, there, os, second + []);
    var s2 := Dismissed(s1, n, false);
    assert s1.trees[ix := s1.trees[ix]] == s1.trees && s2.trees == s1.trees;
    LooksAndEnds(f, limit, s2, n + 2, there, os, []);
    var s3 := Dismissed(s2, n + 2, false);
    assert s2.trees[ix := s2.trees[ix]] == s2.trees && s3.trees == s2.trees;
    NoneLeft(limit, s3);
    assert s3.walks == s.walks;
  }

  lemma IsThere(f: Files, t: Tree, p: Path)
    requires Same(f, t, p)
    ensures f.stat(p) != Skipped
  {
  }

  /**
   An event of each change is not enough. In any state of an open tree, a folder `p` is moved away, the event
   of a folder `c` in it comes and finds nothing there, `p` is moved back, and the events of both moves find `p`
   as it was: no walk more is left than before, and `c`, which can be found if it could, is not watched.
   */
  lemma MovedBack(f: Files, limit: nat, s: State, ix: nat, h: Handle, p: string, c: string, os: OsWatch)
    requires Inv(limit, s) && Nested(f, s, ix, h, p, c)
    ensures var path := s.pool.made[h].dir + [p];
            var away := Exec(limit, s, Away(s, ix, h, p, c, os));
            var s' := Exec(limit, away, Back(s.nextWalk, h, p, f.stat(path), os));
            && s'.walks == s.walks && |s'.trees| == |s.trees| && !s'.trees[ix].closed
            && path in s'.trees[ix].watchers && path + [c] !in s'.trees[ix].watchers
            && (Findable(f, s.trees[ix], path + [c]) ==> Findable(f, s'.trees[ix], path + [c]))
  {
    GoesAway(f, limit, s, ix, h, p, c, os);
    WalkNumbers(limit, s);
    hide Inv, Next, Exec, Same, Away, Back, Findable;
    var away := Exec(limit, s, Away(s, ix, h, p, c, os));
    ComesBack(f, limit, s, away, ix, h, p, c, os);
    SameFindable(f, s.trees[ix], away.trees[ix], s.pool.made[h].dir + [p] + [c]);
  }

  lemma NoneLeft(limit: nat, s: State)
    ensures Exec(limit, s, []) == s
  {
  }

  lemma {:induction false} SameFindable(f: Files, t: Tree, t': Tree, p: Path)
    requires t'.root == t.root && t'.dev == t.dev
    ensures Findable(f, t, p) <==> Findable(f, t', p)
    decreases |p|
  {
    if |p| > |t.root| {
      SameFindable(f, t, t', p[..|p| - 1]);
    }
  }

  /** A watched folder's watch was made for it. */
  lemma WatchOf(limit: nat, s: State, ix: nat, p: Path)
    requires Inv(limit, s) && ix < |s.trees| && p in s.trees[ix].watchers
    ensures var w := s.trees[ix].watchers[p];
            w.handle in s.pool.made && s.pool.made[w.handle] == Made(ix, p, w.depth)
              && Deep(s.trees[ix].root, p, w.depth)
  {
    assert Holds(s.pool, ix, s.trees[ix]) && TreeFits(s.trees[ix]);
  }

  lemma WalkNumbers(limit: nat, s: State)
    requires Inv(limit, s)
    ensures forall k :: k in s.walks ==> k < s.nextWalk
  {
    hide TreesFit, WalkFits;
  }

  /** An event of a path that is not too deep begins a walk at it. */
  lemma Appears(limit: nat, s: State, h: Handle, name: string, rest: seq<Event>)
    requires h in s.pool.made && s.pool.made[h].tree < |s.trees| && !s.trees[s.pool.made[h].tree].closed
    requires s.pool.made[h].depth + 1 < MAX_DEPTH
    ensures var m := s.pool.made[h];
            Exec(limit, s, [Changed(h, Some(name))] + rest)
            == Exec(limit, Begin(s, Lstat(m.tree, m.dir + [name], m.depth + 1, [])), rest)
  {
    ChangedIsNext(limit, s, h, Some(name));
    hide Next;
    ExecCons(limit, s, Changed(h, Some(name)), rest);
  }

  lemma DropsOne(f: Files, s: State, ix: nat, p: Path, c: string)
    requires ix < |s.trees| && p in s.trees[ix].watchers && p + [c] in s.trees[ix].watchers && p != s.trees[ix].root
    requires s.trees[ix].root <= p
    ensures var x := Dropped(At(s, ix), p + [c]);
            && x.pool.made == s.pool.made && x.tree.root == s.trees[ix].root && x.tree.dev == s.trees[ix].dev
            && x.tree.closed == s.trees[ix].closed
            && p in x.tree.watchers && p + [c] !in x.tree.watchers && (Same(f, s.trees[ix], p) ==> Same(f, x.tree, p))
  {
    assert !(p + [c] <= p);
    assert p + [c] != s.trees[ix].root;
  }
}
