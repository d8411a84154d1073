/**
 What comes of a call for a key (apps/server/src/tenant-keys.ts): exactly which calls return one and which
 fail, that a process whose steps succeed gets the file's key among any others, and that no temporary file is
 left behind by one that was not stopped.
 */
module TenantKeyCalls {
  import opened Common
  import opened TenantKeys

  /** The alphabet of section 5 of RFC 4648. */
  function Base64Url(): string {
    seq(26, i requires 0 <= i < 26 => 'A' + i as char) + seq(26, i requires 0 <= i < 26 => 'a' + i as char)
    + seq(10, i requires 0 <= i < 10 => '0' + i as char) + "-_"
  }

  /** A key's text is 32 bytes in that alphabet, unpadded: 43 of its 64 characters. */
  lemma KeyTextIsBase64Url(text: string)
    ensures |Base64Url()| == 64
    ensures IsKeyText(text) <==> |text| == 43 && forall c :: c in text ==> c in Base64Url()
  {
    var all := Base64Url();
    forall c: char
      ensures c in all <==> 'A' <= c <= 'Z' || 'a' <= c <= 'z' || '0' <= c <= '9' || c == '_' || c == '-'
    {
      if 'A' <= c <= 'Z' { assert all[c as int - 'A' as int] == c; }
      if 'a' <= c <= 'z' { assert all[26 + c as int - 'a' as int] == c; }
      if '0' <= c <= '9' { assert all[52 + c as int - '0' as int] == c; }
      if c == '-' { assert all[62] == c; }
      if c == '_' { assert all[63] == c; }
    }
  }

  /** No call of the process is under way. */
  predicate Rests(p: Proc) {
    p.pc.Idle? || p.pc.Failed?
  }

  predicate HoldsKey(file: Option<string>) {
    file.Some? && IsKeyText(Trim(file.value))
  }

  /** The step ends a call with the file's key: it was cached, or is read at once or after linking. */
  predicate Succeeds(d: Disk, p: Proc, e: Event) {
    HoldsKey(d.file) && ((e.Calls? && Rests(p)) || (e.ReadsAgain? && p.pc.Reading?))
  }

  /**
   The step fails a call: the file read is no key; there is none for `open()`; there is content recorded with
   the key that is gone; or linking failed, once the temporary file is gone.
   */
  predicate Fails(d: Disk, p: Proc, e: Event) {
    match e
    case Calls(_, kind, _) => Rests(p) && if d.file == None then kind == OpenOnly else !HoldsKey(d.file)
    case ContentIs(_, has, _) => p.pc.AskingContent? && has
    case Unlinks(_) => p.pc.Unlinking? && p.pc.thrown
    case ReadsAgain(_) => p.pc.Reading? && !HoldsKey(d.file)
    case _ => false
  }

  /** What is cached, if anything, is the file's key. */
  predicate CacheFits(d: Disk, p: Proc) {
    p.cache.Some? ==> p.pc.Idle? && HoldsKey(d.file) && p.cache.value == Trim(d.file.value)
  }

  /**
   What the steps of making a key do: a part of it is written, or all; it gets the file's name if that is free and
   linking does not fail; and a process that stops forgets where it was, leaving the files.
   */
  predicate MovesOn(x: View, e: Event, y: View) {
    match e
    case Writes(_, n) =>
      x.proc.pc.Writing? ==>
        var w := x.proc.pc;
        && y.disk == x.disk.(temps := x.disk.temps[w.temp := w.whole[..Min(n, |w.whole|)]])
        && y.proc.pc == if n >= |w.whole| then Linking(w.temp) else w
    case Links(_, fails) =>
      x.proc.pc.Linking? && x.proc.pc.temp in x.disk.temps ==>
        var key := x.disk.temps[x.proc.pc.temp];
        && y.disk == x.disk.(file := if x.disk.file == None && !fails then Some(key) else x.disk.file)
        && y.proc.pc == Unlinking(x.proc.pc.temp, fails)
    case Crashes(_) => y == View(x.disk, Proc(Idle, None))
    case _ => true
  }

  lemma StepIs(x: View, e: Event)
    requires CacheFits(x.disk, x.proc)
    ensures var y := Step(x, e);
            && (Returns(x, e, y) <==> Succeeds(x.disk, x.proc, e))
            && (Succeeds(x.disk, x.proc, e) ==> y == View(x.disk, Proc(Idle, Some(Trim(x.disk.file.value)))))
            && (Fails(x.disk, x.proc, e) ==> y.proc == Proc(Failed, None))
            && (y.proc.pc.Failed? && !x.proc.pc.Failed? ==> Fails(x.disk, x.proc, e))
            && MovesOn(x, e, y)
  {
    hide IsKeyText, Trim;
    assert x.proc.pc.Writing? ==> x.proc.pc.whole[..|x.proc.pc.whole|] == x.proc.pc.whole;
  }

  lemma CacheOf(first: Option<string>, s: State, p: nat)
    requires Inv(first, s)
    ensures CacheFits(s.disk, ProcOf(s, p))
  {
    assert p in s.procs ==> ProcFits(s.disk, s.procs[p]);
    hide IsKeyText, Trim, FileFits;
  }

  /**
   Exactly when a step of a run returns a value, which is then the file's, and exactly when it fails a call,
   leaving nothing cached; and what the other steps do.
   */
  lemma CallsExactly(first: Option<string>, es: seq<Event>, e: Event)
    requires forall i :: 0 <= i < |es| ==> MakesKeys(es[i])
    ensures var s := Exec(Init(first), es);
            var p := ProcOf(s, e.p);
            var t := Next(s, e);
            var q := ProcOf(t, e.p);
            && t.returned == (if Succeeds(s.disk, p, e) then s.returned + [Trim(s.disk.file.value)] else s.returned)
            && (Succeeds(s.disk, p, e) ==> q == Proc(Idle, Some(Trim(s.disk.file.value))) && t.disk == s.disk)
            && (Fails(s.disk, p, e) ==> q == Proc(Failed, None))
            && (q.pc.Failed? && !p.pc.Failed? ==> Fails(s.disk, p, e))
            && MovesOn(View(s.disk, p), e, View(t.disk, q))
  {
    EveryRun(first, Init(first), es);
    hide Inv, Step, Succeeds, Fails, Returns, Trim;
    var s := Exec(Init(first), es);
    CacheOf(first, s, e.p);
    StepIs(View(s.disk, ProcOf(s, e.p)), e);
  }

  // --- A process whose steps succeed -----------------------------------------------------------------

  /** One process's steps of a run. */
  function Own(es: seq<Event>, p: nat): seq<Event> {
    if es == [] then [] else if es[0].p == p then [es[0]] + Own(es[1..], p) else Own(es[1..], p)
  }

  /** What one process's calls returned. */
  function ReturnedTo(s: State, es: seq<Event>, p: nat): seq<string>
    decreases |es|
  {
    if es == [] then [] else
    var t := Next(s, es[0]);
    (if es[0].p == p && |t.returned| > |s.returned| then [t.returned[|s.returned|]] else [])
    + ReturnedTo(t, es[1..], p)
  }

  /** The steps of a call that makes a key, nothing going wrong; `n` is how many characters the system writes. */
  function Attempt(p: nat, kind: Kind, key: string, n: nat): seq<Event> {
    [Calls(p, kind, key)] + (if kind == Tenant then [ContentIs(p, false, key)] else []) + Making(p, n)
  }

  function Making(p: nat, n: nat): seq<Event> {
    [Writes(p, n), Links(p, false), Unlinks(p), ReadsAgain(p)]
  }

  /** What of them is left for a process where it is. */
  function Left(p: nat, kind: Kind, key: string, n: nat, pc: Pc): seq<Event> {
    match pc
    case Idle => Attempt(p, kind, key, n)
    case Failed => Attempt(p, kind, key, n)
    case AskingContent => [ContentIs(p, false, key)] + Making(p, n)
    case Writing(_, _) => Making(p, n)
    case Linking(_) => Making(p, n)[1..]
    case Unlinking(_, _) => Making(p, n)[2..]
    case Reading => Making(p, n)[3..]
  }

  /** It has its key, and no call of it begins any more. */
  ghost predicate Served(q: Proc, left: seq<Event>) {
    q.pc.Idle? && q.cache.Some? && forall e :: e in left ==> !e.Calls? && !e.Crashes?
  }

  ghost predicate OnTrack(q: Proc, p: nat, kind: Kind, key: string, n: nat, left: seq<Event>) {
    Served(q, left)
    || (left == Left(p, kind, key, n, q.pc) && (q.pc.AskingContent? ==> kind == Tenant)
        && (q.pc.Unlinking? ==> !q.pc.thrown))
  }

  lemma FileIsKey(first: Option<string>, s: State)
    requires Inv(first, s) && (first.Some? ==> HoldsKey(first))
    ensures s.disk.file.Some? ==> HoldsKey(s.disk.file)
  {
    if first == None && s.disk.file.Some? {
      var key :| IsKeyText(key) && s.disk.file.value == key + "\n";
      TrimKey(key);
    }
  }

  lemma WholeLength(text: string)
    requires WholeKey(text)
    ensures |text| == 44
  {
  }

  /** One of its steps. */
  lemma TrackStep(x: View, e: Event, p: nat, kind: Kind, key: string, n: nat, left: seq<Event>)
    requires OnTrack(x.proc, p, kind, key, n, left) && left != [] && e == left[0] && kind != OpenOnly && n >= 44
    requires ProcFits(x.disk, x.proc) && (x.disk.file.Some? ==> HoldsKey(x.disk.file))
    ensures var y := Step(x, e);
            && OnTrack(y.proc, p, kind, key, n, left[1..])
            && (Returns(x, e, y) <==> !Served(x.proc, left) && Served(y.proc, left[1..]))
            && (Served(x.proc, left) ==> Served(y.proc, left[1..]))
  {
    hide Trim, IsKeyText, WholeKey;
    if Served(x.proc, left) {
      assert e in left;
    } else if Rests(x.proc) {
      BeginTracks(x, p, kind, key, n);
    } else {
      MakingTracks(x, e, p, kind, key, n, left);
    }
  }

  lemma BeginTracks(x: View, p: nat, kind: Kind, key: string, n: nat)
    requires Rests(x.proc) && kind != OpenOnly && ProcFits(x.disk, x.proc)
    requires x.disk.file.Some? ==> HoldsKey(x.disk.file)
    ensures var all := Attempt(p, kind, key, n);
            var y := Begin(x, kind, key);
            && all[0] == Calls(p, kind, key) && !Served(x.proc, all) && OnTrack(y.proc, p, kind, key, n, all[1..])
            && (Returns(x, all[0], y) <==> Served(y.proc, all[1..]))
  {
    hide Trim, IsKeyText, WholeKey;
    var all := Attempt(p, kind, key, n);
    assert all[0] in all;
    assert all[1..] == if kind == Tenant then [ContentIs(p, false, key)] + Making(p, n) else Making(p, n);
  }

  lemma MakingTracks(x: View, e: Event, p: nat, kind: Kind, key: string, n: nat, left: seq<Event>)
    requires !Rests(x.proc) && left == Left(p, kind, key, n, x.proc.pc) && n >= 44 && e == left[0]
    requires (x.proc.pc.AskingContent? ==> kind == Tenant) && (x.proc.pc.Unlinking? ==> !x.proc.pc.thrown)
    requires ProcFits(x.disk, x.proc) && (x.disk.file.Some? ==> HoldsKey(x.disk.file))
    ensures var y := Step(x, e);
            && OnTrack(y.proc, p, kind, key, n, left[1..])
            && (Returns(x, e, y) <==> Served(y.proc, left[1..]))
  {
    if x.proc.pc.Writing? { WholeLength(x.proc.pc.whole); }
    hide Trim, IsKeyText, WholeKey;
    var making := Making(p, n);
    assert left[1..] == match x.proc.pc case AskingContent => making case Writing(_, _) => making[1..]
                             case Linking(_) => making[2..] case Unlinking(_, _) => making[3..] case _ => [];
  }

  /**
   A process whose steps all succeed gets its key: whatever others do between, stopping or not, its call returns
   just once, and returns what the key file holds, which it has cached. The file found at the start, if any, is a key.
   */
  lemma {:induction false} AttemptSucceeds(first: Option<string>, s: State, es: seq<Event>, p: nat, kind: Kind,
         key: string, n: nat)
    requires Inv(first, s) && (first.Some? ==> HoldsKey(first)) && kind != OpenOnly && n >= 44
    requires forall i :: 0 <= i < |es| ==> MakesKeys(es[i])
    requires OnTrack(ProcOf(s, p), p, kind, key, n, Own(es, p))
    ensures var t := Exec(s, es);
            && HoldsKey(t.disk.file) && ProcOf(t, p) == Proc(Idle, Some(Trim(t.disk.file.value)))
            && ReturnedTo(s, es, p) == if Served(ProcOf(s, p), Own(es, p)) then [] else [Trim(t.disk.file.value)]
    decreases |es|
  {
    hide Inv, Next, IsKeyText, Trim, OnTrack;
    CacheOf(first, s, p);
    if es == [] {
      TrackEnds(ProcOf(s, p), p, kind, key, n);
    } else {
      var e, left := es[0], Own(es, p);
      var t := Next(s, e);
      NextKeeps(first, s, e);
      assert forall i :: 0 <= i < |es| - 1 ==> es[1..][i] == es[i + 1];
      OwnStep(first, s, e, p, kind, key, n, left);
      AttemptSucceeds(first, t, es[1..], p, kind, key, n);
      EveryRun(first, t, es[1..]);
      var rest := Own(es[1..], p);
      assert e.p == p ==> left[1..] == rest;
      if e.p == p && Served(ProcOf(t, p), rest) && !Served(ProcOf(s, p), left) {
        assert t.returned[|s.returned|] == Trim(t.disk.file.value);
      }
    }
  }

  lemma TrackEnds(q: Proc, p: nat, kind: Kind, key: string, n: nat)
    requires OnTrack(q, p, kind, key, n, [])
    ensures Served(q, [])
  {
  }

  /** A step of a run: it keeps the process on its track, and what it returns to it, once, is what the file holds. */
  lemma OwnStep(first: Option<string>, s: State, e: Event, p: nat, kind: Kind, key: string, n: nat, left: seq<Event>)
    requires Inv(first, s) && (first.Some? ==> HoldsKey(first)) && kind != OpenOnly && n >= 44 && MakesKeys(e)
    requires OnTrack(ProcOf(s, p), p, kind, key, n, left) && (e.p == p ==> left != [] && e == left[0])
    ensures var t := Next(s, e);
            var left' := if e.p == p then left[1..] else left;
            && OnTrack(ProcOf(t, p), p, kind, key, n, left') && (e.p != p ==> ProcOf(t, p) == ProcOf(s, p))
            && (Served(ProcOf(s, p), left) ==> Served(ProcOf(t, p), left'))
            && (e.p == p && Served(ProcOf(t, p), left') && !Served(ProcOf(s, p), left) ==>
                  t.disk.file.Some? && t.returned == s.returned + [Trim(t.disk.file.value)])
            && (e.p == p && (Served(ProcOf(s, p), left) || !Served(ProcOf(t, p), left')) ==> t.returned == s.returned)
  {
    if e.p == p {
      var x := View(s.disk, ProcOf(s, p));
      FileIsKey(first, s);
      ProcFitsIn(first, s, p);
      TrackStep(x, e, p, kind, key, n, left);
      NextKeeps(first, s, e);
      CacheOf(first, Next(s, e), p);
    }
    hide Inv, Step, OnTrack, IsKeyText, Trim;
  }

  lemma ProcFitsIn(first: Option<string>, s: State, p: nat)
    requires Inv(first, s)
    ensures ProcFits(s.disk, ProcOf(s, p))
  {
  }

  /** So from any state of a run: the call of a process at rest returns the file's key, once, and it is kept. */
  lemma KeyIsReturned(first: Option<string>, before: seq<Event>, es: seq<Event>, p: nat, kind: Kind, key: string,
         n: nat)
    requires (first.Some? ==> HoldsKey(first)) && kind != OpenOnly && n >= 44
    requires forall i :: 0 <= i < |before| ==> MakesKeys(before[i])
    requires forall i :: 0 <= i < |es| ==> MakesKeys(es[i])
    requires Rests(ProcOf(Exec(Init(first), before), p)) && Own(es, p) == Attempt(p, kind, key, n)
    ensures var s := Exec(Init(first), before);
            var t := Exec(s, es);
            && HoldsKey(t.disk.file) && ReturnedTo(s, es, p) == [Trim(t.disk.file.value)]
            && ProcOf(t, p).cache == Some(Trim(t.disk.file.value))
  {
    hide Inv, Next, IsKeyText, Trim, OnTrack, Served, Attempt, Own, ReturnedTo;
    var s := Exec(Init(first), before);
    InitFits(first);
    EveryRun(first, Init(first), before);
    AttemptIsTrack(ProcOf(s, p), p, kind, key, n);
    AttemptSucceeds(first, s, es, p, kind, key, n);
  }

  lemma AttemptIsTrack(q: Proc, p: nat, kind: Kind, key: string, n: nat)
    requires Rests(q)
    ensures OnTrack(q, p, kind, key, n, Attempt(p, kind, key, n)) && !Served(q, Attempt(p, kind, key, n))
  {
    assert Attempt(p, kind, key, n)[0].Calls? && Attempt(p, kind, key, n)[0] in Attempt(p, kind, key, n);
  }

  lemma InitFits(first: Option<string>)
    ensures Inv(first, Init(first))
  {
  }

  // --- No temporary file is left behind ---------------------------------------------------------------

  /** A process is at writing, linking or removing it. */
  ghost predicate Used(procs: map<nat, Proc>, temp: nat) {
    exists p :: p in procs && TempOf(procs[p]) == Some(temp)
  }

  ghost predicate TempsUsed(s: State) {
    forall k :: k in s.disk.temps <==> Used(s.procs, k)
  }

  /** What a step does to the process's temporary file: nothing, or it makes one or removes it. */
  lemma TempMoves(x: View, e: Event)
    requires ProcFits(x.disk, x.proc) && !e.Crashes?
    ensures var y := Step(x, e);
            var was, now := TempOf(x.proc), TempOf(y.proc);
            || (now == was && y.disk.temps.Keys == x.disk.temps.Keys)
            || (was == None && now == Some(x.disk.nextTemp) && y.disk.temps.Keys == x.disk.temps.Keys + {now.value})
            || (was.Some? && now == None && y.disk.temps.Keys == x.disk.temps.Keys - {was.value})
  {
    hide IsKeyText, Trim;
  }

  lemma NewIsUnused(first: Option<string>, s: State)
    requires Inv(first, s)
    ensures !Used(s.procs, s.disk.nextTemp)
  {
    forall p | p in s.procs ensures TempOf(s.procs[p]) != Some(s.disk.nextTemp) {
      assert ProcFits(s.disk, s.procs[p]);
    }
  }

  lemma TempsKept(first: Option<string>, s: State, e: Event)
    requires Inv(first, s) && TempsUsed(s) && !e.Crashes?
    ensures TempsUsed(Next(s, e))
  {
    var t := Next(s, e);
    var x := View(s.disk, ProcOf(s, e.p));
    var y := Step(x, e);
    ProcFitsIn(first, s, e.p);
    TempMoves(x, e);
    NewIsUnused(first, s);
    assert Apart(s.procs);
    hide Inv, Step, IsKeyText, Trim, TempOf, Returns;
    assert e.p !in s.procs ==> TempOf(x.proc) == None by { NoneYet(); }
    forall k ensures k in t.disk.temps <==> Used(t.procs, k) {
      assert k in t.disk.temps <==> k in y.disk.temps.Keys;
      assert k in s.disk.temps <==> k in x.disk.temps.Keys;
      assert t.procs[e.p] == y.proc;
      if p :| p in s.procs && TempOf(s.procs[p]) == Some(k) {
        assert p != e.p ==> t.procs[p] == s.procs[p];
      }
      if p :| p in t.procs && TempOf(t.procs[p]) == Some(k) {
        assert p != e.p ==> t.procs[p] == s.procs[p];
      }
    }
  }

  lemma NoneYet()
    ensures TempOf(Proc(Idle, None)) == None
  {
  }

  /**
   While no process stops, the temporary files are just those that processes are at; so once all calls have
   returned or failed, however linking went, there is none.
   */
  lemma {:induction false} NoneLeftBehind(first: Option<string>, s: State, es: seq<Event>)
    requires Inv(first, s) && TempsUsed(s)
    requires forall i :: 0 <= i < |es| ==> MakesKeys(es[i]) && !es[i].Crashes?
    ensures var t := Exec(s, es);
            TempsUsed(t) && ((forall p :: p in t.procs ==> Rests(t.procs[p])) ==> t.disk.temps == map[])
    decreases |es|
  {
    if es == [] {
      if forall p :: p in s.procs ==> Rests(s.procs[p]) {
        assert forall k :: k !in s.disk.temps;
      }
    } else {
      hide Inv, Next, TempsUsed;
      NextKeeps(first, s, es[0]);
      TempsKept(first, s, es[0]);
      assert forall i :: 0 <= i < |es| - 1 ==> es[1..][i] == es[i + 1];
      NoneLeftBehind(first, Next(s, es[0]), es[1..]);
    }
  }

  /** From the start. */
  lemma NoneLeft(first: Option<string>, es: seq<Event>)
    requires forall i :: 0 <= i < |es| ==> MakesKeys(es[i]) && !es[i].Crashes?
    ensures var t := Exec(Init(first), es);
            (forall p :: p in t.procs ==> Rests(t.procs[p])) ==> t.disk.temps == map[]
  {
    InitFits(first);
    NoneLeftBehind(first, Init(first), es);
  }
}
