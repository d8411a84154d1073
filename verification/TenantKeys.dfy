/**
 The key files (apps/server/src/tenant-keys.ts): a tenant's blob key and the server's storage key.
 Any number of processes read, make and link one key file, each system call a step of its own, and
 any of them may stop at any step. A key's value is its text.
 */
module TenantKeys {
  import opened Common

  /** `^[A-Za-z0-9_-]{43}$`. */
  predicate IsKeyText(text: string) {
    |text| == 43 && forall c :: c in text ==>
      'A' <= c <= 'Z' || 'a' <= c <= 'z' || '0' <= c <= '9' || c == '_' || c == '-'
  }

  /** What every process sees: the key file, and the temporary files, by number. */
  datatype Disk = Disk(file: Option<string>, temps: map<nat, string>, nextTemp: nat)

  /**
   Where a process is in the function. The temporary file goes however linking ended; `thrown` says that
   it failed, and not because there was a key file.
   */
  datatype Pc =
    | Idle
    | AskingContent
    | Writing(temp: nat, whole: string)
    | Linking(temp: nat)
    | Unlinking(temp: nat, thrown: bool)
    | Reading
    | Failed

  /** Whether it may make a key: `open()` of the storage key never does; a tenant's asks for content first. */
  datatype Kind = Tenant | Seal | OpenOnly

  datatype Proc = Proc(pc: Pc, cache: Option<string>)

  datatype View = View(disk: Disk, proc: Proc)

  /** The end of a call: what was read is a key, kept from now on, or the call fails. */
  function Checked(x: View, text: Option<string>): View {
    match text
    case None => x.(proc := x.proc.(pc := Failed))
    case Some(t) => if IsKeyText(Trim(t)) then x.(proc := Proc(Idle, Some(Trim(t))))
      else x.(proc := x.proc.(pc := Failed))
  }

  /** A new temporary file, empty (`wx`: it was not there), to hold `key` and a line end. */
  function StartTemp(x: View, key: string): View {
    View(x.disk.(temps := x.disk.temps[x.disk.nextTemp := ""], nextTemp := x.disk.nextTemp + 1),
         x.proc.(pc := Writing(x.disk.nextTemp, key + "\n")))
  }

  /** A call begins: the cache, or the file's first read. `key` is what it makes if it needs to. */
  function Begin(x: View, kind: Kind, key: string): View {
    if !(x.proc.pc.Idle? || x.proc.pc.Failed?) || x.proc.cache.Some? then x
    else if x.disk.file.Some? then Checked(x, x.disk.file)
    else match kind
      case Tenant => x.(proc := x.proc.(pc := AskingContent))
      case Seal => StartTemp(x, key)
      case OpenOnly => x.(proc := x.proc.(pc := Failed))
  }

  /** `hasContent` answers. */
  function Answered(x: View, hasContent: bool, key: string): View {
    if !x.proc.pc.AskingContent? then x
    else if hasContent then x.(proc := x.proc.(pc := Failed))
    else StartTemp(x, key)
  }

  /** The temporary file gets its first `n` characters; with all of them the write is done. */
  function Written(x: View, n: nat): View {
    match x.proc.pc
    case Writing(temp, whole) =>
      if n >= |whole| then View(x.disk.(temps := x.disk.temps[temp := whole]), x.proc.(pc := Linking(temp)))
      else x.(disk := x.disk.(temps := x.disk.temps[temp := whole[..n]]))
    case _ => x
  }

  /** `link`: the name appears with the temporary file's text, or was there already (EEXIST), or it fails. */
  function LinkTried(x: View, fails: bool): View {
    match x.proc.pc
    case Linking(temp) =>
      var linked :=
        if !fails && x.disk.file == None && temp in x.disk.temps then x.disk.(file := Some(x.disk.temps[temp]))
        else x.disk;
      View(linked, x.proc.(pc := Unlinking(temp, fails)))
    case _ => x
  }

  function Unlinked(x: View): View {
    match x.proc.pc
    case Unlinking(temp, thrown) =>
      View(x.disk.(temps := x.disk.temps - {temp}), x.proc.(pc := if thrown then Failed else Reading))
    case _ => x
  }

  function Reread(x: View): View {
    if x.proc.pc.Reading? then Checked(x, x.disk.file) else x
  }

  class Files {
    var file: Option<string>
    var temps: map<nat, string>
    var nextTemp: nat

    constructor (file: Option<string>)
      ensures this.file == file && temps == map[] && nextTemp == 0
    {
      this.file, temps, nextTemp := file, map[], 0;
    }
  }

  /** One process's store, over the files all processes share. */
  class Store {
    const disk: Files
    var pc: Pc
    var cache: Option<string>

    constructor (disk: Files)
      ensures this.disk == disk && Value().proc == Proc(Idle, None)
    {
      this.disk := disk;
      pc, cache := Idle, None;
    }

    function Value(): View
      reads this, disk
    {
      View(Disk(disk.file, disk.temps, disk.nextTemp), Proc(pc, cache))
    }

    method Check(text: Option<string>)
      modifies this
      ensures Value() == Checked(old(Value()), text)
    {
      if text == None || !IsKeyText(Trim(text.value)) {
        pc := Failed;
        return;
      }
      cache := Some(Trim(text.value));
      pc := Idle;
    }

    method MakeTemp(key: string)
      modifies this, disk
      ensures Value() == StartTemp(old(Value()), key)
    {
      var temp := disk.nextTemp;
      disk.nextTemp := temp + 1;
      disk.temps := disk.temps[temp := ""];
      pc := Writing(temp, key + "\n");
    }

    method Get(kind: Kind, key: string)
      modifies this, disk
      ensures Value() == Begin(old(Value()), kind, key)
    {
      if !(pc.Idle? || pc.Failed?) || cache.Some? {
        return;
      }
      var text := disk.file;
      if text.Some? {
        Check(text);
        return;
      }
      match kind
      case Tenant => pc := AskingContent;
      case Seal => MakeTemp(key);
      case OpenOnly => pc := Failed;
    }

    method OnContent(hasContent: bool, key: string)
      modifies this, disk
      ensures Value() == Answered(old(Value()), hasContent, key)
    {
      if !pc.AskingContent? {
        return;
      }
      if hasContent {
        pc := Failed;
      } else {
        MakeTemp(key);
      }
    }

    method Write(n: nat)
      modifies this, disk
      ensures Value() == Written(old(Value()), n)
    {
      if pc.Writing? {
        var temp, whole := pc.temp, pc.whole;
        if n < |whole| {
          disk.temps := disk.temps[temp := whole[..n]];
        } else {
          disk.temps := disk.temps[temp := whole];
          pc := Linking(temp);
        }
      }
    }

    method Link(fails: bool)
      modifies this, disk
      ensures Value() == LinkTried(old(Value()), fails)
    {
      if pc.Linking? {
        var temp := pc.temp;
        if !fails && disk.file == None && temp in disk.temps {
          disk.file := Some(disk.temps[temp]);
        }
        pc := Unlinking(temp, fails);
      }
    }

    method Unlink()
      modifies this, disk
      ensures Value() == Unlinked(old(Value()))
    {
      if pc.Unlinking? {
        disk.temps := disk.temps - {pc.temp};
        pc := if pc.thrown then Failed else Reading;
      }
    }

    method ReadAgain()
      modifies this
      ensures Value() == Reread(old(Value()))
    {
      if pc.Reading? {
        Check(disk.file);
      }
    }
  }

  // --- Runs -------------------------------------------------------------------------------------

  datatype Event =
    | Calls(p: nat, kind: Kind, key: string)
    | ContentIs(p: nat, hasContent: bool, key: string)
    | Writes(p: nat, n: nat)
    | Links(p: nat, fails: bool)
    | Unlinks(p: nat)
    | ReadsAgain(p: nat)
    | Crashes(p: nat)

  /** Every process there can be, and every value a call has returned, in order. */
  datatype State = State(disk: Disk, procs: map<nat, Proc>, returned: seq<string>)

  /** The file as found at the start: none, or some text. */
  function Init(file: Option<string>): State {
    State(Disk(file, map[], 0), map[], [])
  }

  /** A process there was no word of yet has just started. */
  function ProcOf(s: State, p: nat): Proc {
    if p in s.procs then s.procs[p] else Proc(Idle, None)
  }

  function Step(x: View, e: Event): View {
    match e
    case Calls(_, kind, key) => Begin(x, kind, key)
    case ContentIs(_, has, key) => Answered(x, has, key)
    case Writes(_, n) => Written(x, n)
    case Links(_, fails) => LinkTried(x, fails)
    case Unlinks(_) => Unlinked(x)
    case ReadsAgain(_) => Reread(x)
    // Stopped where it was: whatever it wrote stays, what it cached is gone.
    case Crashes(_) => x.(proc := Proc(Idle, None))
  }

  /** A process's call returns: it had a key cached, or has one now. */
  predicate Returns(x: View, e: Event, y: View) {
    y.proc.pc.Idle? && y.proc.cache.Some? && (e.Calls? || x.proc.pc.Reading?)
  }

  function Next(s: State, e: Event): State {
    var x := View(s.disk, ProcOf(s, e.p));
    var y := Step(x, e);
    State(y.disk, s.procs[e.p := y.proc], if Returns(x, e, y) then s.returned + [y.proc.cache.value] else s.returned)
  }

  function Exec(s: State, es: seq<Event>): State
    decreases |es|
  {
    if es == [] then s else Exec(Next(s, es[0]), es[1..])
  }

  /** A run of one event more goes on from where the run was. */
  lemma {:induction false} RunGoesOn(s: State, es: seq<Event>, e: Event)
    ensures Exec(s, []) == s && Exec(s, es + [e]) == Next(Exec(s, es), e)
    decreases |es|
  {
    hide Next;
    if es == [] {
      assert [] + [e] == [e] && [e][1..] == [];
    } else {
      assert (es + [e])[1..] == es[1..] + [e];
      RunGoesOn(Next(s, es[0]), es[1..], e);
    }
  }

  /** Every key a process makes is one (32 random bytes as base64url): what the source guarantees. */
  predicate MakesKeys(e: Event) {
    match e
    case Calls(_, _, key) => IsKeyText(key)
    case ContentIs(_, _, key) => IsKeyText(key)
    case _ => true
  }

  /** A process's own temporary file, and what of its text is in it. */
  ghost predicate ProcFits(d: Disk, p: Proc) {
    && (p.cache.Some? ==>
          p.pc.Idle? && d.file.Some? && p.cache.value == Trim(d.file.value) && IsKeyText(p.cache.value))
    && (match p.pc
        case Writing(temp, whole) => temp < d.nextTemp && temp in d.temps && WholeKey(whole)
        case Linking(temp) => temp < d.nextTemp && temp in d.temps && WholeKey(d.temps[temp])
        case Unlinking(temp, thrown) => temp < d.nextTemp && (!thrown ==> d.file.Some?)
        case Reading => d.file.Some?
        case _ => true)
  }

  /** A key file's whole text. */
  ghost predicate WholeKey(text: string) {
    exists key :: IsKeyText(key) && text == key + "\n"
  }

  function TempOf(p: Proc): Option<nat> {
    if p.pc.Writing? || p.pc.Linking? || p.pc.Unlinking? then Some(p.pc.temp) else None
  }

  ghost predicate FileFits(first: Option<string>, file: Option<string>) {
    && (first.Some? ==> file == first)
    && (first == None && file.Some? ==> WholeKey(file.value))
  }

  ghost predicate ProcsFit(d: Disk, procs: map<nat, Proc>) {
    forall p :: p in procs ==> ProcFits(d, procs[p])
  }

  /** No two processes share a temporary file. */
  ghost predicate Apart(procs: map<nat, Proc>) {
    forall p, q :: p in procs && q in procs && p != q && TempOf(procs[p]).Some? ==> TempOf(procs[p]) != TempOf(procs[q])
  }

  ghost predicate AllOf(file: Option<string>, returned: seq<string>) {
    returned != [] ==> file.Some? && forall i :: 0 <= i < |returned| ==> returned[i] == Trim(file.value)
  }

  ghost predicate Inv(first: Option<string>, s: State) {
    FileFits(first, s.disk.file) && ProcsFit(s.disk, s.procs) && Apart(s.procs) && AllOf(s.disk.file, s.returned)
  }

  lemma TrimKey(key: string)
    requires IsKeyText(key)
    ensures Trim(key + "\n") == key
  {
    var t := key + "\n";
    assert t[0] == key[0] && key[0] in key;
    assert t[..|t| - 1] == key;
    assert key[|key| - 1] in key;
    assert TrimStart(t) == t;
    assert TrimEnd(key) == key;
  }

  lemma StepKeeps(first: Option<string>, x: View, e: Event)
    requires ProcFits(x.disk, x.proc) && MakesKeys(e)
    requires first == None && x.disk.file.Some? ==> WholeKey(x.disk.file.value)
    ensures var y := Step(x, e);
            && ProcFits(y.disk, y.proc)
            && (x.disk.file.Some? ==> y.disk.file == x.disk.file)
            && (x.disk.file == None && y.disk.file.Some? ==> WholeKey(y.disk.file.value))
            && x.disk.nextTemp <= y.disk.nextTemp
            && (TempOf(y.proc).Some? ==> TempOf(y.proc) == TempOf(x.proc) || TempOf(y.proc).value == x.disk.nextTemp)
            && (forall k :: k in x.disk.temps && TempOf(x.proc) != Some(k) && k < x.disk.nextTemp ==>
                  k in y.disk.temps && y.disk.temps[k] == x.disk.temps[k])
            && (Returns(x, e, y) ==> y.disk.file.Some? && y.proc.cache.value == Trim(y.disk.file.value))
  {
  }

  /** One process's step keeps what another knows of the disk, */
  lemma OtherFits(x: Disk, y: Disk, other: Proc)
    requires ProcFits(x, other) && x.nextTemp <= y.nextTemp && (x.file.Some? ==> y.file == x.file)
    requires TempOf(other).Some? && TempOf(other).value in x.temps ==>
               TempOf(other).value in y.temps && y.temps[TempOf(other).value] == x.temps[TempOf(other).value]
    ensures ProcFits(y, other)
  {
  }

  /** and has only temporary files of its own. */
  lemma StepApart(procs: map<nat, Proc>, p: nat, mine: Proc, next: nat)
    requires Apart(procs) && forall q :: q in procs && TempOf(procs[q]).Some? ==> TempOf(procs[q]).value < next
    requires TempOf(mine) == None || TempOf(mine).value == next || (p in procs && TempOf(mine) == TempOf(procs[p]))
    ensures Apart(procs[p := mine])
  {
  }

  /** What one process's step keeps of the others. */
  lemma OthersKeep(first: Option<string>, s: State, e: Event)
    requires FileFits(first, s.disk.file) && ProcsFit(s.disk, s.procs) && Apart(s.procs) && MakesKeys(e)
    ensures var y := Step(View(s.disk, ProcOf(s, e.p)), e);
            Apart(s.procs[e.p := y.proc]) && ProcsFit(y.disk, s.procs[e.p := y.proc])
  {
    var x := View(s.disk, ProcOf(s, e.p));
    StepKeeps(first, x, e);
    var y := Step(x, e);
    forall q | q in s.procs && TempOf(s.procs[q]).Some? ensures TempOf(s.procs[q]).value < s.disk.nextTemp {
      assert ProcFits(s.disk, s.procs[q]);
    }
    assert e.p !in s.procs ==> TempOf(x.proc) == None;
    hide Step, ProcFits, FileFits, WholeKey;
    StepApart(s.procs, e.p, y.proc, s.disk.nextTemp);
    forall p | p in s.procs && p != e.p ensures ProcFits(y.disk, s.procs[p]) {
      assert ProcFits(s.disk, s.procs[p]);
      assert TempOf(s.procs[p]).Some? ==> TempOf(x.proc) != TempOf(s.procs[p]);
      OtherFits(x.disk, y.disk, s.procs[p]);
    }
  }

  lemma NextKeeps(first: Option<string>, s: State, e: Event)
    requires Inv(first, s) && MakesKeys(e)
    ensures Inv(first, Next(s, e))
    ensures s.disk.file.Some? ==> Next(s, e).disk.file == s.disk.file
    ensures s.returned <= Next(s, e).returned
  {
    var x := View(s.disk, ProcOf(s, e.p));
    StepKeeps(first, x, e);
    OthersKeep(first, s, e);
    hide Step, ProcsFit, Apart, ProcFits;
  }

  /**
   In every run the file, once there, is never anything else: it is the one found at the start or
   one process's whole key, and every value a call returned or cached is its.
   */
  lemma {:induction false} EveryRun(first: Option<string>, s: State, es: seq<Event>)
    requires Inv(first, s) && forall i :: 0 <= i < |es| ==> MakesKeys(es[i])
    ensures Inv(first, Exec(s, es))
    ensures s.disk.file.Some? ==> Exec(s, es).disk.file == s.disk.file
    ensures s.returned <= Exec(s, es).returned
    decreases |es|
  {
    if es != [] {
      NextKeeps(first, s, es[0]);
      EveryRun(first, Next(s, es[0]), es[1..]);
    }
  }

  /** Agreement: any two values ever returned, by any processes at any times, are the same key. */
  lemma Agreement(first: Option<string>, es: seq<Event>)
    requires forall i :: 0 <= i < |es| ==> MakesKeys(es[i])
    ensures var r := Exec(Init(first), es).returned;
            forall i, j :: 0 <= i < j < |r| ==> r[i] == r[j]
    // And so is what any of them has cached: the key the file holds.
    ensures var s := Exec(Init(first), es);
            forall p :: p in s.procs && s.procs[p].cache.Some? ==>
              s.disk.file.Some? && s.procs[p].cache.value == Trim(s.disk.file.value)
    ensures var s := Exec(Init(first), es);
            first == None && s.disk.file.Some? ==> IsKeyText(Trim(s.disk.file.value))
  {
    EveryRun(first, Init(first), es);
    var s := Exec(Init(first), es);
    if first == None && s.disk.file.Some? {
      var key :| IsKeyText(key) && s.disk.file.value == key + "\n";
      TrimKey(key);
    }
  }

  // --- Where there is content, no key is made -------------------------------------------------------

  /** A process that is not at making a key. */
  predicate MakesNothing(p: Proc) {
    p.pc.Idle? || p.pc.AskingContent? || p.pc.Failed?
  }

  ghost predicate MakesNone(p: Proc) {
    MakesNothing(p) && p.cache == None
  }

  ghost predicate NoneMakes(s: State) {
    s.disk.file == None && forall p :: p in s.procs ==> MakesNone(s.procs[p])
  }

  /** The tenant has content, and no storage key is sealed with. */
  predicate ContentThere(e: Event) {
    match e
    case Calls(_, kind, _) => kind != Seal
    case ContentIs(_, has, _) => has
    case _ => true
  }

  /**
   In no run does a process that sees content make a key: while the key file is gone and content is
   there, whatever any processes do, the files stay as they are and every call fails.
   */
  lemma {:induction false} ContentMakesNoKey(s: State, es: seq<Event>)
    requires NoneMakes(s) && forall i :: 0 <= i < |es| ==> ContentThere(es[i])
    ensures var t := Exec(s, es); t.disk == s.disk && t.returned == s.returned && NoneMakes(t)
    decreases |es|
  {
    if es != [] {
      assert ContentThere(es[0]) && MakesNone(ProcOf(s, es[0].p));
      ContentMakesNoKey(Next(s, es[0]), es[1..]);
    }
  }

  /** Such states are those with no key file in which no call is at making one. */
  lemma NoneMakesExactly(first: Option<string>, es: seq<Event>)
    requires forall i :: 0 <= i < |es| ==> MakesKeys(es[i])
    ensures var s := Exec(Init(first), es);
            NoneMakes(s) <==> s.disk.file == None && forall p :: p in s.procs ==>
              s.procs[p].pc in {Idle, AskingContent, Failed}
  {
    EveryRun(first, Init(first), es);
    var s := Exec(Init(first), es);
    assert forall p :: p in s.procs ==> ProcFits(s.disk, s.procs[p]);
  }

  /** None of one process's steps changes the files. */
  ghost predicate LeavesFiles(s: State, p: nat, es: seq<Event>)
    decreases |es|
  {
    es == [] || ((es[0].p == p ==> Next(s, es[0]).disk == s.disk) && LeavesFiles(Next(s, es[0]), p, es[1..]))
  }

  /**
   Among any others, doing anything: a process that is told of content whenever it asks, and seals with no
   storage key, never touches the files, so makes no key.
   */
  lemma {:induction false} SawContent(s: State, p: nat, es: seq<Event>)
    requires MakesNothing(ProcOf(s, p)) && forall i :: 0 <= i < |es| && es[i].p == p ==> ContentThere(es[i])
    ensures MakesNothing(ProcOf(Exec(s, es), p)) && LeavesFiles(s, p, es)
    decreases |es|
  {
    if es != [] {
      var t := Next(s, es[0]);
      assert es[0].p == p ==> ContentThere(es[0]);
      assert MakesNothing(ProcOf(t, p)) && (es[0].p == p ==> t.disk == s.disk);
      forall i | 0 <= i < |es[1..]| && es[1..][i].p == p ensures ContentThere(es[1..][i]) {
        assert es[i + 1].p == p;
      }
      SawContent(t, p, es[1..]);
    }
  }
}
