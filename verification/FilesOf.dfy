/**
 The files a message becomes (apps/server/src/mail-in.ts, `filesOf`): its text, its attachments, and
 in turn the files of the messages forwarded inside it, while their depth and a budget shared by the
 whole message allow.
 */
module FilesOf {
  import opened Common

  const ATTACHMENTS_MAX: nat := 50
  const NESTED_MAX: nat := 3
  const NESTED_BUDGET: nat := 20

  /** A parsed attachment; `parsed` is what the parser makes of its bytes (None: it can't be read). */
  datatype Attachment = Attachment(related: bool, attached: bool, size: nat, isMessage: bool, parsed: Option<Mail>)

  datatype Mail = Mail(attachments: seq<Attachment>)

  /** The text of a message, naming what came with it, or an attachment. */
  datatype File =
    | Body(part: string, attachments: seq<string>, forwarded: seq<string>)
    | Plain(part: string, from: Attachment)

  datatype Gather = Gather(kept: seq<File>, inside: seq<File>, skipped: nat, budget: nat)

  datatype Result = Result(files: seq<File>, skipped: nat, budget: nat)

  // --- Names ------------------------------------------------------------------------------------

  function Digit(n: nat): char
    requires n < 10
  {
    (n + 48) as char
  }

  function Dec(n: nat): string {
    if n < 10 then [Digit(n)] else Dec(n / 10) + [Digit(n % 10)]
  }

  function Named(at: string, n: nat): string {
    at + ['a', '/'] + Dec(n)
  }

  function Below(at: string, n: nat): string {
    Named(at, n) + ['/']
  }

  function BodyOf(at: string): string {
    at + ['b', 'o', 'd', 'y']
  }

  function Slashes(s: string): nat {
    if s == "" then 0 else Slashes(s[..|s| - 1]) + if s[|s| - 1] == '/' then 1 else 0
  }

  predicate EndsAsBody(s: string) {
    |s| >= 5 && s[|s| - 5..] == ['/', 'b', 'o', 'd', 'y']
  }

  // --- The files, as a function -------------------------------------------------------------------

  /** What a multipart/related message embeds in its HTML is no file. */
  function Shown(attachments: seq<Attachment>): seq<Attachment> {
    if attachments == [] then []
    else
      var last := attachments[|attachments| - 1];
      Shown(attachments[..|attachments| - 1]) + if last.related && !last.attached then [] else [last]
  }

  function Parts(files: seq<File>): seq<string> {
    seq(|files|, i requires 0 <= i < |files| => files[i].part)
  }

  /** The texts among `files` that lie two slashes below `at`. */
  function Forwarded(files: seq<File>, at: string): seq<File> {
    if files == [] then []
    else
      var last := files[|files| - 1];
      Forwarded(files[..|files| - 1], at)
      + if EndsAsBody(last.part) && Slashes(last.part) == Slashes(at) + 2 then [last] else []
  }

  predicate Opens(a: Attachment, depth: nat, budget: nat) {
    a.isMessage && depth < NESTED_MAX && budget > 0
  }

  function Step(g: Gather, a: Attachment, i: nat, maxBytes: nat, at: string, depth: nat): Gather
    requires depth <= NESTED_MAX
    decreases NESTED_MAX - depth, 0, 0
  {
    if i >= ATTACHMENTS_MAX || a.size > maxBytes then
      g.(skipped := g.skipped + 1)
    else if Opens(a, depth, g.budget) then
      match a.parsed
      case None => g.(kept := g.kept + [Plain(Named(at, i + 1), a)], budget := g.budget - 1)
      case Some(m) =>
        var r := Files(m, maxBytes, Below(at, i + 1), depth + 1, g.budget - 1);
        Gather(g.kept, g.inside + r.files, g.skipped + r.skipped, r.budget)
    else
      g.(kept := g.kept + [Plain(Named(at, i + 1), a)])
  }

  /** After the first `n` attachments. */
  function Gathered(atts: seq<Attachment>, n: nat, maxBytes: nat, at: string, depth: nat, budget: nat): Gather
    requires n <= |atts| && depth <= NESTED_MAX
    decreases NESTED_MAX - depth, 1, n
  {
    if n == 0 then Gather([], [], 0, budget)
    else Step(Gathered(atts, n - 1, maxBytes, at, depth, budget), atts[n - 1], n - 1, maxBytes, at, depth)
  }

  function Closed(g: Gather, at: string, depth: nat): Result {
    var body := Body(BodyOf(at), Parts(g.kept), Parts(Forwarded(g.inside, at)));
    var all := g.kept + g.inside;
    var taken := if depth == 0 then all[..Min(ATTACHMENTS_MAX, |all|)] else all;
    Result([body] + taken, g.skipped + |all| - |taken|, g.budget)
  }

  function Files(mail: Mail, maxBytes: nat, at: string, depth: nat, budget: nat): Result
    requires depth <= NESTED_MAX
    decreases NESTED_MAX - depth, 2, 0
  {
    var atts := Shown(mail.attachments);
    Closed(Gathered(atts, |atts|, maxBytes, at, depth, budget), at, depth)
  }

  /** A message inside another gives all its files: the limit of fifty is the whole message's. */
  lemma ClosedInside(g: Gather, at: string, depth: nat)
    requires depth > 0
    ensures var r := Closed(g, at, depth);
            && r.skipped == g.skipped && r.budget == g.budget && |r.files| == 1 + |g.kept| + |g.inside|
            && r.files == [r.files[0]] + (g.kept + g.inside) && r.files[0].part == BodyOf(at)
  {
  }

  predicate Skips(a: Attachment, n: nat, maxBytes: nat) {
    n > ATTACHMENTS_MAX || a.size > maxBytes
  }

  /** Attachment `n` (counted from 1) is opened as a message. */
  predicate Descends(a: Attachment, n: nat, maxBytes: nat, depth: nat, budget: nat) {
    !Skips(a, n, maxBytes) && Opens(a, depth, budget) && a.parsed.Some?
  }

  /** What is gathered in the message opened as attachment `n`. */
  function Inner(a: Attachment, n: nat, maxBytes: nat, at: string, depth: nat, budget: nat): Gather
    requires Descends(a, n, maxBytes, depth, budget)
  {
    var atts := Shown(a.parsed.value.attachments);
    Gathered(atts, |atts|, maxBytes, Below(at, n), depth + 1, budget - 1)
  }

  /** What one attachment adds, case by case. */
  lemma Unfold(atts: seq<Attachment>, n: nat, maxBytes: nat, at: string, depth: nat, budget: nat)
    requires 0 < n <= |atts| && depth <= NESTED_MAX
    ensures var g := Gathered(atts, n - 1, maxBytes, at, depth, budget);
            var g' := Gathered(atts, n, maxBytes, at, depth, budget);
            var a := atts[n - 1];
            if Skips(a, n, maxBytes) then
              g' == g.(skipped := g.skipped + 1)
            else if Descends(a, n, maxBytes, depth, g.budget) then
              var r := Closed(Inner(a, n, maxBytes, at, depth, g.budget), Below(at, n), depth + 1);
              g' == Gather(g.kept, g.inside + r.files, g.skipped + r.skipped, r.budget)
            else
              g' == Gather(g.kept + [Plain(Named(at, n), a)], g.inside, g.skipped,
                           if Opens(a, depth, g.budget) then g.budget - 1 else g.budget)
  {
    hide Closed, Named, Below, Shown;
    var g := Gathered(atts, n - 1, maxBytes, at, depth, budget);
    var a := atts[n - 1];
    assert Gathered(atts, n, maxBytes, at, depth, budget) == Step(g, a, n - 1, maxBytes, at, depth);
    if Descends(a, n, maxBytes, depth, g.budget) {
      assert Files(a.parsed.value, maxBytes, Below(at, n), depth + 1, g.budget - 1)
          == Closed(Inner(a, n, maxBytes, at, depth, g.budget), Below(at, n), depth + 1);
    }
  }

  // --- The files, as the loop that gathers them --------------------------------------------------

  /** `budget`, shared by a message and everything opened in it. */
  class Budget {
    var nested: nat

    constructor (nested: nat)
      ensures this.nested == nested
    {
      this.nested := nested;
    }
  }

  method KeepShown(attachments: seq<Attachment>) returns (shown: seq<Attachment>)
    ensures shown == Shown(attachments)
  {
    shown := [];
    for i := 0 to |attachments|
      invariant shown == Shown(attachments[..i])
    {
      assert attachments[..i + 1][..i] == attachments[..i];
      if !(attachments[i].related && !attachments[i].attached) {
        shown := shown + [attachments[i]];
      }
    }
    assert attachments[..|attachments|] == attachments;
  }

  method Gathering(mail: Mail, maxBytes: nat, at: string, depth: nat, budget: Budget)
    returns (files: seq<File>, skipped: nat)
    requires depth <= NESTED_MAX
    modifies budget
    ensures Result(files, skipped, budget.nested) == Files(mail, maxBytes, at, depth, old(budget.nested))
    decreases NESTED_MAX - depth
  {
    hide Shown, Parts, Forwarded, BodyOf, Dec;
    var atts := KeepShown(mail.attachments);
    var kept: seq<File>, inside: seq<File> := [], [];
    skipped := 0;
    for i := 0 to |atts|
      invariant Gather(kept, inside, skipped, budget.nested)
             == Gathered(atts, i, maxBytes, at, depth, old(budget.nested))
    {
      var a := atts[i];
      var part := Named(at, i + 1);
      if i >= ATTACHMENTS_MAX || a.size > maxBytes {
        skipped := skipped + 1;
        continue;
      }
      if a.isMessage && depth < NESTED_MAX && budget.nested > 0 {
        budget.nested := budget.nested - 1;
        if a.parsed.Some? {
          var more, less := Gathering(a.parsed.value, maxBytes, part + ['/'], depth + 1, budget);
          inside := inside + more;
          skipped := skipped + less;
          continue;
        }
      }
      kept := kept + [Plain(part, a)];
    }
    var body := Body(BodyOf(at), Parts(kept), Parts(Forwarded(inside, at)));
    var all := kept + inside;
    var taken := if depth == 0 then all[..Min(ATTACHMENTS_MAX, |all|)] else all;
    files, skipped := [body] + taken, skipped + |all| - |taken|;
  }

  // --- Nothing is lost or counted twice -----------------------------------------------------------

  /** The messages opened, their attachments that were not opened, those of them that could not be, the budget left. */
  datatype Census = Census(texts: nat, others: nat, unread: nat, budget: nat)

  function CensusOf(atts: seq<Attachment>, n: nat, maxBytes: nat, depth: nat, budget: nat): Census
    requires n <= |atts| && depth <= NESTED_MAX
    decreases NESTED_MAX - depth, n
  {
    if n == 0 then Census(1, 0, 0, budget)
    else
      var c := CensusOf(atts, n - 1, maxBytes, depth, budget);
      var a := atts[n - 1];
      if Descends(a, n, maxBytes, depth, c.budget) then
        var more := Shown(a.parsed.value.attachments);
        var d := CensusOf(more, |more|, maxBytes, depth + 1, c.budget - 1);
        Census(c.texts + d.texts, c.others + d.others, c.unread + d.unread, d.budget)
      else
        var unread := if !Skips(a, n, maxBytes) && Opens(a, depth, c.budget) then 1 else 0;
        Census(c.texts, c.others + 1, c.unread + unread, c.budget - unread)
  }

  ghost function CensusOfMail(mail: Mail, maxBytes: nat, depth: nat, budget: nat): Census
    requires depth <= NESTED_MAX
  {
    var atts := Shown(mail.attachments);
    CensusOf(atts, |atts|, maxBytes, depth, budget)
  }

  lemma CensusUnfold(atts: seq<Attachment>, n: nat, maxBytes: nat, depth: nat, budget: nat)
    requires 0 < n <= |atts| && depth <= NESTED_MAX
    ensures var c := CensusOf(atts, n - 1, maxBytes, depth, budget);
            var c' := CensusOf(atts, n, maxBytes, depth, budget);
            var a := atts[n - 1];
            if Descends(a, n, maxBytes, depth, c.budget) then
              var d := CensusOfMail(a.parsed.value, maxBytes, depth + 1, c.budget - 1);
              c' == Census(c.texts + d.texts, c.others + d.others, c.unread + d.unread, d.budget)
            else
              var unread := if !Skips(a, n, maxBytes) && Opens(a, depth, c.budget) then 1 else 0;
              c' == Census(c.texts, c.others + 1, c.unread + unread, c.budget - unread)
  {
    hide Shown;
  }

  ghost predicate Balanced(g: Gather, c: Census, budget: nat) {
    && 1 + |g.kept| + |g.inside| + g.skipped == c.texts + c.others
    && g.budget == c.budget && c.texts + c.unread + c.budget == 1 + budget
  }

  lemma NoneGathered(atts: seq<Attachment>, maxBytes: nat, at: string, depth: nat, budget: nat)
    requires depth <= NESTED_MAX
    ensures Gathered(atts, 0, maxBytes, at, depth, budget) == Gather([], [], 0, budget)
    ensures CensusOf(atts, 0, maxBytes, depth, budget) == Census(1, 0, 0, budget)
  {
  }

  lemma {:induction false} GatheredConserves(atts: seq<Attachment>, n: nat, maxBytes: nat, at: string, depth: nat,
         budget: nat)
    requires n <= |atts| && depth <= NESTED_MAX
    ensures Balanced(Gathered(atts, n, maxBytes, at, depth, budget), CensusOf(atts, n, maxBytes, depth, budget), budget)
    decreases NESTED_MAX - depth, n
  {
    hide Gathered, Step, Files, Closed, CensusOf, Inner, Shown, Skips, Opens;
    if n == 0 {
      NoneGathered(atts, maxBytes, at, depth, budget);
    } else {
      GatheredConserves(atts, n - 1, maxBytes, at, depth, budget);
      Unfold(atts, n, maxBytes, at, depth, budget);
      CensusUnfold(atts, n, maxBytes, depth, budget);
      var g := Gathered(atts, n - 1, maxBytes, at, depth, budget);
      var a := atts[n - 1];
      if Descends(a, n, maxBytes, depth, g.budget) {
        InnerConserves(a, n, maxBytes, at, depth, g.budget);
      }
    }
  }

  lemma {:induction false} InnerConserves(a: Attachment, n: nat, maxBytes: nat, at: string, depth: nat, budget: nat)
    requires Descends(a, n, maxBytes, depth, budget)
    ensures var r := Closed(Inner(a, n, maxBytes, at, depth, budget), Below(at, n), depth + 1);
            var d := CensusOfMail(a.parsed.value, maxBytes, depth + 1, budget - 1);
            && |r.files| + r.skipped == d.texts + d.others
            && r.budget == d.budget && d.texts + d.unread + d.budget == budget
    decreases NESTED_MAX - depth, 0
  {
    hide Closed, Shown;
    var more := Shown(a.parsed.value.attachments);
    GatheredConserves(more, |more|, maxBytes, Below(at, n), depth + 1, budget - 1);
    ClosedInside(Inner(a, n, maxBytes, at, depth, budget), Below(at, n), depth + 1);
  }

  /**
   Files and skipped are one for each message opened and one for each attachment not opened; a whole
   message opens twenty more at most, each that can't be read counting too, and becomes 51 files at most.
   */
  lemma Conserves(mail: Mail, maxBytes: nat)
    ensures var r := Files(mail, maxBytes, "", 0, NESTED_BUDGET);
            var c := CensusOfMail(mail, maxBytes, 0, NESTED_BUDGET);
            && |r.files| + r.skipped == c.texts + c.others
            && 1 <= c.texts && c.texts + c.unread + r.budget == 1 + 20
            && |r.files| <= 1 + 50
  {
    var atts := Shown(mail.attachments);
    GatheredConserves(atts, |atts|, maxBytes, "", 0, NESTED_BUDGET);
    OpenedAtLeastOne(atts, |atts|, maxBytes, 0, NESTED_BUDGET);
  }

  lemma {:induction false} OpenedAtLeastOne(atts: seq<Attachment>, n: nat, maxBytes: nat, depth: nat, budget: nat)
    requires n <= |atts| && depth <= NESTED_MAX
    ensures CensusOf(atts, n, maxBytes, depth, budget).texts >= 1
    decreases n
  {
    if n > 0 {
      OpenedAtLeastOne(atts, n - 1, maxBytes, depth, budget);
    }
  }

  // --- No two files have one name -----------------------------------------------------------------

  predicate IsDigit(c: char) {
    '0' <= c <= '9'
  }

  function Value(s: string): int {
    if s == "" then 0 else Value(s[..|s| - 1]) * 10 + (s[|s| - 1] as int - 48)
  }

  /** How many digits a text starts with. */
  function Run(s: string): (n: nat)
    ensures n <= |s|
  {
    if s == "" || !IsDigit(s[0]) then 0 else 1 + Run(s[1..])
  }

  lemma {:induction false} DecIsNumber(n: nat)
    ensures Value(Dec(n)) == n && Dec(n) != "" && forall i :: 0 <= i < |Dec(n)| ==> IsDigit(Dec(n)[i])
  {
    if n >= 10 {
      DecIsNumber(n / 10);
      var s := Dec(n / 10) + [Digit(n % 10)];
      assert s[..|s| - 1] == Dec(n / 10);
    } else {
      var s := [Digit(n)];
      assert s[..|s| - 1] == "";
    }
  }

  lemma {:induction false} RunOf(digits: string, rest: string)
    requires forall i :: 0 <= i < |digits| ==> IsDigit(digits[i])
    requires rest == "" || !IsDigit(rest[0])
    ensures Run(digits + rest) == |digits|
  {
    if digits == "" {
      assert digits + rest == rest;
    } else {
      assert (digits + rest)[1..] == digits[1..] + rest;
      RunOf(digits[1..], rest);
    }
  }

  /** Which attachment of the message at `at` a name goes back to (counted from 1), or 0. */
  function Index(at: string, part: string): int {
    if |part| >= |at| + 2 && part[..|at|] == at && part[|at|] == 'a' && part[|at| + 1] == '/' then
      var rest := part[|at| + 2..];
      Value(rest[..Run(rest)])
    else 0
  }

  lemma IndexOfBelow(at: string, n: nat, part: string)
    requires part == Named(at, n) || Below(at, n) <= part
    ensures Index(at, part) == n
  {
    DecIsNumber(n);
    hide Dec;
    var tail := TailOf(at, Dec(n), part);
    RunOf(Dec(n), tail);
    FirstPart(Dec(n), tail);
  }

  lemma TailOf(at: string, digits: string, part: string) returns (tail: string)
    requires part == at + ['a', '/'] + digits || at + ['a', '/'] + digits + ['/'] <= part
    ensures part == at + ['a', '/'] + digits + tail && (tail == "" || tail[0] == '/')
    ensures |part| >= |at| + 2 && part[..|at|] == at && part[|at|] == 'a' && part[|at| + 1] == '/'
    ensures part[|at| + 2..] == digits + tail
  {
    var head := at + ['a', '/'] + digits;
    tail := part[|head|..];
    if part != head {
      assert part[..|head + ['/']|] == head + ['/'];
      assert part[..|head|] == head && part[|head|] == '/';
    }
    assert part == head + tail;
  }

  lemma FirstPart(a: string, b: string)
    ensures (a + b)[..|a|] == a
  {
  }

  ghost predicate Distinct(files: seq<File>) {
    forall i, j :: 0 <= i < j < |files| ==> files[i].part != files[j].part
  }

  /** Every name goes back to one of the first `n` attachments of the message at `at`. */
  ghost predicate Within(files: seq<File>, at: string, n: nat) {
    forall f :: f in files ==> at <= f.part && 1 <= Index(at, f.part) <= n
  }

  lemma Prefixes(a: string, b: string, c: string)
    requires a <= b && b <= c
    ensures a <= c
  {
  }

  lemma {:induction false} GatheredNames(atts: seq<Attachment>, n: nat, maxBytes: nat, at: string, depth: nat,
         budget: nat)
    requires n <= |atts| && depth <= NESTED_MAX
    ensures var g := Gathered(atts, n, maxBytes, at, depth, budget);
            && Distinct(g.kept + g.inside) && Within(g.kept + g.inside, at, n)
    decreases NESTED_MAX - depth, 0, n
  {
    if n > 0 {
      GatheredNames(atts, n - 1, maxBytes, at, depth, budget);
      Unfold(atts, n, maxBytes, at, depth, budget);
      var g := Gathered(atts, n - 1, maxBytes, at, depth, budget);
      var a := atts[n - 1];
      hide Gathered, Step, Files, Closed, Inner, Shown, Descends, Skips, Opens, Distinct, Named, Below, Index;
      if Descends(a, n, maxBytes, depth, g.budget) {
        InnerNames(a, n, maxBytes, at, depth, g.budget);
        var more := Closed(Inner(a, n, maxBytes, at, depth, g.budget), Below(at, n), depth + 1).files;
        assert [] + more == more && g.kept + [] == g.kept;
        AddedNames(g.kept, g.inside, [], more, at, n);
      } else if !Skips(a, n, maxBytes) {
        var one := [Plain(Named(at, n), a)];
        assert one + [] == one && g.inside + [] == g.inside;
        OneIsDistinct(one[0]);
        AddedNames(g.kept, g.inside, one, [], at, n);
      }
    }
  }

  /** The files of a message opened as attachment `n`. */
  lemma {:induction false} InnerNames(a: Attachment, n: nat, maxBytes: nat, at: string, depth: nat, budget: nat)
    requires Descends(a, n, maxBytes, depth, budget)
    ensures depth < NESTED_MAX
    ensures var files := Closed(Inner(a, n, maxBytes, at, depth, budget), Below(at, n), depth + 1).files;
            Distinct(files) && forall f :: f in files ==> Below(at, n) <= f.part
    decreases NESTED_MAX - depth, 0, 0
  {
    hide Gathered, Step, Files, Closed, Shown, Distinct, Within, Index, Below;
    var more := Shown(a.parsed.value.attachments);
    GatheredNames(more, |more|, maxBytes, Below(at, n), depth + 1, budget - 1);
    ClosedNames(Inner(a, n, maxBytes, at, depth, budget), Below(at, n), depth + 1, |more|);
  }

  lemma OneIsDistinct(f: File)
    ensures Distinct([f])
  {
  }

  ghost predicate Apart(a: seq<File>, b: seq<File>) {
    forall f, g :: f in a && g in b ==> f.part != g.part
  }

  lemma DistinctCat(a: seq<File>, b: seq<File>)
    ensures Distinct(a + b) <==> Distinct(a) && Distinct(b) && Apart(a, b)
  {
    var all := a + b;
    if Distinct(all) {
      forall i, j | 0 <= i < j < |a| ensures a[i].part != a[j].part {
        assert all[i] == a[i] && all[j] == a[j];
      }
      forall i, j | 0 <= i < j < |b| ensures b[i].part != b[j].part {
        assert all[|a| + i] == b[i] && all[|a| + j] == b[j];
      }
      forall f, g | f in a && g in b ensures f.part != g.part {
        var i :| 0 <= i < |a| && a[i] == f;
        var j :| 0 <= j < |b| && b[j] == g;
        assert all[i] == f && all[|a| + j] == g;
      }
    }
    if Distinct(a) && Distinct(b) && Apart(a, b) {
      forall i, j | 0 <= i < j < |all| ensures all[i].part != all[j].part {
        assert i < |a| ==> all[i] in a;
        assert j >= |a| ==> all[j] in b;
      }
    }
  }

  /** Of the attachment `n` of the message at `at`, or inside it. */
  predicate From(part: string, at: string, n: nat) {
    part == Named(at, n) || Below(at, n) <= part
  }

  lemma FromIsWithin(part: string, at: string, n: nat)
    requires From(part, at, n)
    ensures at <= part && Index(at, part) == n
  {
    IndexOfBelow(at, n, part);
    assert at <= Named(at, n);
    if part != Named(at, n) {
      Prefixes(Named(at, n), Below(at, n), part);
    }
    Prefixes(at, Named(at, n), part);
  }

  /** What one more attachment adds shares no name with what came before it. */
  lemma AddedNames(kept: seq<File>, inside: seq<File>, kept': seq<File>, inside': seq<File>, at: string, n: nat)
    requires n > 0 && Distinct(kept + inside) && Within(kept + inside, at, n - 1) && Distinct(kept' + inside')
    requires forall f :: f in kept' + inside' ==> From(f.part, at, n)
    ensures Distinct(kept + kept' + (inside + inside')) && Within(kept + kept' + (inside + inside'), at, n)
  {
    hide From, Index, Distinct;
    forall f | f in kept' + inside' ensures at <= f.part && Index(at, f.part) == n {
      FromIsWithin(f.part, at, n);
    }
    assert forall f :: f in kept || f in inside ==> f in kept + inside;
    assert forall f :: f in kept' || f in inside' ==> f in kept' + inside';
    DistinctCat(kept, inside);
    DistinctCat(kept', inside');
    DistinctCat(kept, kept');
    DistinctCat(inside, inside');
    DistinctCat(kept + kept', inside + inside');
  }

  lemma {:induction false} FilesNames(mail: Mail, maxBytes: nat, at: string, depth: nat, budget: nat)
    requires depth <= NESTED_MAX
    ensures var r := Files(mail, maxBytes, at, depth, budget);
            Distinct(r.files) && forall f :: f in r.files ==> at <= f.part
    decreases NESTED_MAX - depth, 1, 0
  {
    var atts := Shown(mail.attachments);
    GatheredNames(atts, |atts|, maxBytes, at, depth, budget);
    ClosedNames(Gathered(atts, |atts|, maxBytes, at, depth, budget), at, depth, |atts|);
  }

  lemma ClosedNames(g: Gather, at: string, depth: nat, n: nat)
    requires Distinct(g.kept + g.inside) && Within(g.kept + g.inside, at, n)
    ensures var files := Closed(g, at, depth).files; Distinct(files) && forall f :: f in files ==> at <= f.part
  {
    var all := g.kept + g.inside;
    var files := Closed(g, at, depth).files;
    var taken := files[1..];
    assert taken <= all;
    assert Distinct(taken);
    assert forall f :: f in taken ==> f in all;
    assert files[0].part == BodyOf(at);
    assert Index(at, BodyOf(at)) == 0 && at <= BodyOf(at);
    hide Closed, Index, Distinct, BodyOf;
    assert Apart([files[0]], taken);
    DistinctCat([files[0]], taken);
    assert files == [files[0]] + taken;
  }

  /** No two files of a message are recorded under one name. */
  lemma NamesDiffer(mail: Mail, maxBytes: nat)
    ensures Distinct(Files(mail, maxBytes, "", 0, NESTED_BUDGET).files)
  {
    FilesNames(mail, maxBytes, "", 0, NESTED_BUDGET);
  }

  // --- What a text says was forwarded --------------------------------------------------------------

  lemma {:induction false} SlashesCat(a: string, b: string)
    ensures Slashes(a + b) == Slashes(a) + Slashes(b)
  {
    if b == "" {
      assert a + b == a;
    } else {
      assert (a + b)[..|a + b| - 1] == a + b[..|b| - 1];
      SlashesCat(a, b[..|b| - 1]);
    }
  }

  lemma {:induction false} NoSlashes(digits: string)
    requires forall i :: 0 <= i < |digits| ==> digits[i] != '/'
    ensures Slashes(digits) == 0
  {
    if digits != "" {
      NoSlashes(digits[..|digits| - 1]);
    }
  }

  lemma SlashOrNot()
    ensures Slashes(['a', '/']) == 1 && Slashes(['/']) == 1 && Slashes(['b', 'o', 'd', 'y']) == 0
  {
    NoSlashes(['a']);
    NoSlashes(['b', 'o', 'd', 'y']);
    assert ['a', '/'][..1] == ['a'] && ['/'][..0] == "";
  }

  lemma NamesEnd(at: string, n: nat)
    ensures !EndsAsBody(Named(at, n)) && EndsAsBody(BodyOf(Below(at, n)))
  {
    DecIsNumber(n);
    hide Dec, Value;
    assert Named(at, n)[|Named(at, n)| - 1] == Dec(n)[|Dec(n)| - 1];
  }

  lemma SlashesOfNames(at: string, n: nat)
    ensures Slashes(Named(at, n)) == Slashes(at) + 1 && Slashes(Below(at, n)) == Slashes(at) + 2
    ensures Slashes(BodyOf(at)) == Slashes(at)
    ensures !EndsAsBody(Named(at, n)) && EndsAsBody(BodyOf(Below(at, n)))
  {
    hide Slashes, Dec, Value, EndsAsBody;
    SlashOrNot();
    NamesEnd(at, n);
    DecIsNumber(n);
    NoSlashes(Dec(n));
    SlashesCat(at, ['a', '/']);
    SlashesCat(at + ['a', '/'], Dec(n));
    SlashesCat(Named(at, n), ['/']);
    SlashesCat(at, ['b', 'o', 'd', 'y']);
  }

  lemma {:induction false} ForwardedCat(a: seq<File>, b: seq<File>, at: string)
    ensures Forwarded(a + b, at) == Forwarded(a, at) + Forwarded(b, at)
  {
    if b == [] {
      assert a + b == a;
    } else {
      assert (a + b)[..|a + b| - 1] == a + b[..|b| - 1];
      ForwardedCat(a, b[..|b| - 1], at);
    }
  }

  lemma {:induction false} NoneForwarded(files: seq<File>, at: string)
    requires forall f :: f in files ==> !(EndsAsBody(f.part) && Slashes(f.part) == Slashes(at) + 2)
    ensures Forwarded(files, at) == []
  {
    if files != [] {
      NoneForwarded(files[..|files| - 1], at);
    }
  }

  /** The texts of the messages opened among the first `n` attachments themselves, in order. */
  function Heads(atts: seq<Attachment>, n: nat, maxBytes: nat, at: string, depth: nat, budget: nat): seq<File>
    requires n <= |atts| && depth <= NESTED_MAX
  {
    if n == 0 then []
    else
      var left := Gathered(atts, n - 1, maxBytes, at, depth, budget).budget;
      var a := atts[n - 1];
      Heads(atts, n - 1, maxBytes, at, depth, budget)
      + if Descends(a, n, maxBytes, depth, left)
        then [Closed(Inner(a, n, maxBytes, at, depth, left), Below(at, n), depth + 1).files[0]]
        else []
  }

  /** The names gathered at `at`: how many slashes they have, and which end as a text's does. */
  ghost predicate Leveled(g: Gather, at: string, depth: nat) {
    && (forall f :: f in g.kept ==> Slashes(f.part) == Slashes(at) + 1 && !EndsAsBody(f.part))
    && AllDeeper(g.inside, at, depth)
  }

  ghost predicate AllDeeper(files: seq<File>, at: string, depth: nat) {
    forall f :: f in files ==> Slashes(at) + 2 <= Slashes(f.part) <= Slashes(at) + 2 * (NESTED_MAX - depth) + 1
  }

  lemma LeveledPlain(g: Gather, at: string, depth: nat, f: File)
    requires Leveled(g, at, depth) && Slashes(f.part) == Slashes(at) + 1 && !EndsAsBody(f.part)
    ensures Leveled(g.(kept := g.kept + [f]), at, depth)
  {
    hide Slashes, EndsAsBody;
  }

  lemma {:induction false} GatheredLevels(atts: seq<Attachment>, n: nat, maxBytes: nat, at: string, depth: nat,
         budget: nat)
    requires n <= |atts| && depth <= NESTED_MAX
    ensures Leveled(Gathered(atts, n, maxBytes, at, depth, budget), at, depth)
    decreases NESTED_MAX - depth, n
  {
    if n > 0 {
      GatheredLevels(atts, n - 1, maxBytes, at, depth, budget);
      Unfold(atts, n, maxBytes, at, depth, budget);
      SlashesOfNames(at, n);
      var g := Gathered(atts, n - 1, maxBytes, at, depth, budget);
      var g' := Gathered(atts, n, maxBytes, at, depth, budget);
      var a := atts[n - 1];
      hide *;
      if Descends(a, n, maxBytes, depth, g.budget) {
        InnerLevels(a, n, maxBytes, at, depth, g.budget, g.inside);
        var files := Closed(Inner(a, n, maxBytes, at, depth, g.budget), Below(at, n), depth + 1).files;
        LeveledInside(g, at, depth, files);
        LeveledFiles(g.(inside := g.inside + files), g', at, depth);
      } else if Skips(a, n, maxBytes) {
        LeveledFiles(g, g', at, depth);
      } else {
        LeveledPlain(g, at, depth, Plain(Named(at, n), a));
        LeveledFiles(g.(kept := g.kept + [Plain(Named(at, n), a)]), g', at, depth);
      }
    }
  }

  lemma {:induction false} InnerLevels(a: Attachment, n: nat, maxBytes: nat, at: string, depth: nat, budget: nat,
         inside: seq<File>)
    requires Descends(a, n, maxBytes, depth, budget)
    ensures var files := Closed(Inner(a, n, maxBytes, at, depth, budget), Below(at, n), depth + 1).files;
            && AllDeeper(files, at, depth)
            && Forwarded(inside + files, at) == Forwarded(inside, at) + [files[0]]
    decreases NESTED_MAX - depth, 0
  {
    hide Closed, Slashes, EndsAsBody, Named, Below, BodyOf, Forwarded, Shown, Leveled;
    var more := Shown(a.parsed.value.attachments);
    var at' := Below(at, n);
    GatheredLevels(more, |more|, maxBytes, at', depth + 1, budget - 1);
    SlashesOfNames(at, n);
    SlashesOfNames(at', 0);
    NestedLevels(inside, Inner(a, n, maxBytes, at, depth, budget), at, at', depth);
  }

  lemma LeveledInside(g: Gather, at: string, depth: nat, files: seq<File>)
    requires depth <= NESTED_MAX && Leveled(g, at, depth) && AllDeeper(files, at, depth)
    ensures Leveled(g.(inside := g.inside + files), at, depth)
  {
    hide Slashes, EndsAsBody;
  }

  lemma LeveledFiles(g: Gather, g': Gather, at: string, depth: nat)
    requires Leveled(g, at, depth) && g'.kept == g.kept && g'.inside == g.inside
    ensures Leveled(g', at, depth)
  {
  }

  lemma NoHeads(atts: seq<Attachment>, maxBytes: nat, at: string, depth: nat, budget: nat)
    requires depth <= NESTED_MAX
    ensures Heads(atts, 0, maxBytes, at, depth, budget) == [] && Forwarded([], at) == []
  {
  }

  lemma HeadsUnfold(atts: seq<Attachment>, n: nat, maxBytes: nat, at: string, depth: nat, budget: nat)
    requires 0 < n <= |atts| && depth <= NESTED_MAX
    ensures var g := Gathered(atts, n - 1, maxBytes, at, depth, budget);
            var a := atts[n - 1];
            Heads(atts, n, maxBytes, at, depth, budget)
            == Heads(atts, n - 1, maxBytes, at, depth, budget)
               + if Descends(a, n, maxBytes, depth, g.budget)
                 then [Closed(Inner(a, n, maxBytes, at, depth, g.budget), Below(at, n), depth + 1).files[0]]
                 else []
  {
    hide Gathered, Inner, Shown, Descends, Named, Below;
  }

  lemma {:induction false} GatheredHeads(atts: seq<Attachment>, n: nat, maxBytes: nat, at: string, depth: nat,
         budget: nat)
    requires n <= |atts| && depth <= NESTED_MAX
    ensures Forwarded(Gathered(atts, n, maxBytes, at, depth, budget).inside, at)
        == Heads(atts, n, maxBytes, at, depth, budget)
    decreases n
  {
    hide Gathered, Step, Files, Closed, Inner, Shown, Forwarded, Heads, Named, Below, Skips, Opens, Slashes;
    if n == 0 {
      NoneGathered(atts, maxBytes, at, depth, budget);
      NoHeads(atts, maxBytes, at, depth, budget);
    } else {
      GatheredHeads(atts, n - 1, maxBytes, at, depth, budget);
      Unfold(atts, n, maxBytes, at, depth, budget);
      HeadsUnfold(atts, n, maxBytes, at, depth, budget);
      var g := Gathered(atts, n - 1, maxBytes, at, depth, budget);
      var a := atts[n - 1];
      if Descends(a, n, maxBytes, depth, g.budget) {
        InnerLevels(a, n, maxBytes, at, depth, g.budget, g.inside);
      }
    }
  }

  lemma NestedLevels(inside: seq<File>, g: Gather, at: string, at': string, depth: nat)
    requires depth < NESTED_MAX && Leveled(g, at', depth + 1) && Slashes(at') == Slashes(at) + 2
    requires Slashes(BodyOf(at')) == Slashes(at') && EndsAsBody(BodyOf(at'))
    ensures var files := Closed(g, at', depth + 1).files;
            && Forwarded(inside + files, at) == Forwarded(inside, at) + [files[0]]
            && AllDeeper(files, at, depth)
  {
    var files := Closed(g, at', depth + 1).files;
    var rest := g.kept + g.inside;
    ClosedInside(g, at', depth + 1);
    hide Closed, Slashes, EndsAsBody, BodyOf, Forwarded;
    forall f | f in rest ensures Slashes(at) + 3 <= Slashes(f.part) <= Slashes(at) + 2 * (NESTED_MAX - depth) + 1 {
      assert f in g.kept || f in g.inside;
    }
    OneForwarded(inside, files[0], rest, at);
    assert forall f :: f in files <==> f == files[0] || f in rest;
  }

  lemma OneForwarded(inside: seq<File>, head: File, rest: seq<File>, at: string)
    requires EndsAsBody(head.part) && Slashes(head.part) == Slashes(at) + 2
    requires forall f :: f in rest ==> Slashes(f.part) > Slashes(at) + 2
    ensures Forwarded(inside + ([head] + rest), at) == Forwarded(inside, at) + [head]
  {
    assert Forwarded([head], at) == [head] by {
      assert [head][..0] == [];
    }
    hide Slashes, EndsAsBody, Forwarded;
    NoneForwarded(rest, at);
    ForwardedCat([head], rest, at);
    ForwardedCat(inside, [head] + rest, at);
    assert [head] + [] == [head];
  }

  /** The text of a message names every attachment kept and every message opened in it, and no deeper one. */
  lemma TextNames(mail: Mail, maxBytes: nat, at: string, depth: nat, budget: nat)
    requires depth <= NESTED_MAX
    ensures var atts := Shown(mail.attachments);
            var body := Files(mail, maxBytes, at, depth, budget).files[0];
            && body.Body? && body.part == BodyOf(at)
            && body.attachments == Parts(Gathered(atts, |atts|, maxBytes, at, depth, budget).kept)
            && body.forwarded == Parts(Heads(atts, |atts|, maxBytes, at, depth, budget))
  {
    var atts := Shown(mail.attachments);
    GatheredHeads(atts, |atts|, maxBytes, at, depth, budget);
  }

  /** Nothing comes from deeper than three messages down: a name has seven slashes at most. */
  lemma NoneDeeper(mail: Mail, maxBytes: nat)
    ensures forall f :: f in Files(mail, maxBytes, "", 0, NESTED_BUDGET).files ==> Slashes(f.part) <= 2 * NESTED_MAX + 1
  {
    var atts := Shown(mail.attachments);
    GatheredLevels(atts, |atts|, maxBytes, "", 0, NESTED_BUDGET);
    SlashesOfNames("", 0);
    var g := Gathered(atts, |atts|, maxBytes, "", 0, NESTED_BUDGET);
    var r := Closed(g, "", 0);
    assert Slashes("") == 0;
    hide Slashes, EndsAsBody, Gathered;
    forall f | f in r.files ensures Slashes(f.part) <= 2 * NESTED_MAX + 1 {
      var i :| 0 <= i < |r.files| && r.files[i] == f;
      if i > 0 {
        assert f == (g.kept + g.inside)[i - 1];
        assert f in g.kept || f in g.inside;
      }
    }
  }
}
