/**
 Which attachments of a message are files and which are opened as messages (apps/server/src/mail-in.ts, `filesOf`),
 exactly.
 */
module FilesExact {
  import opened Common
  import opened FilesOf

  /** What is no file: an embedded part, unless it is sent as an attachment. The others stay in their order. */
  lemma {:induction false} ShownExactly(a: seq<Attachment>, b: seq<Attachment>)
    ensures Shown(a + b) == Shown(a) + Shown(b)
    ensures forall x :: Shown([x]) == if x.related && !x.attached then [] else [x]
  {
    assert forall x: Attachment :: [x][..0] == [];
    if b == [] {
      assert a + b == a;
    } else {
      var n := |b| - 1;
      assert (a + b)[..|a + b| - 1] == a + b[..n] && (a + b)[|a + b| - 1] == b[n];
      ShownExactly(a, b[..n]);
      var last := if b[n].related && !b[n].attached then [] else [b[n]];
      assert Shown(a + b) == Shown(a + b[..n]) + last && Shown(b) == Shown(b[..n]) + last;
      hide Shown;
      assert Shown(a) + Shown(b[..n]) + last == Shown(a) + (Shown(b[..n]) + last);
    }
  }

  /** Later attachments add no name of an earlier one. */
  lemma {:induction false} NamesStay(atts: seq<Attachment>, i: nat, n: nat, maxBytes: nat, at: string, depth: nat,
         budget: nat)
    requires 1 <= i <= n <= |atts| && depth <= NESTED_MAX
    ensures var g := Gathered(atts, i, maxBytes, at, depth, budget);
            var g' := Gathered(atts, n, maxBytes, at, depth, budget);
            forall f: File :: From(f.part, at, i) ==>
              (f in g'.kept <==> f in g.kept) && (f in g'.inside <==> f in g.inside)
    decreases n
  {
    hide *;
    if i < n {
      NamesStay(atts, i, n - 1, maxBytes, at, depth, budget);
      AddsOwn(atts, n, maxBytes, at, depth, budget);
      forall f: File | From(f.part, at, i) ensures !From(f.part, at, n) {
        FromIsWithin(f.part, at, i);
        if From(f.part, at, n) { FromIsWithin(f.part, at, n); }
      }
    }
  }

  /** One attachment adds files of its own: itself, or those of the message it is. */
  lemma AddsOwn(atts: seq<Attachment>, n: nat, maxBytes: nat, at: string, depth: nat, budget: nat)
    requires 0 < n <= |atts| && depth <= NESTED_MAX
    ensures var g := Gathered(atts, n - 1, maxBytes, at, depth, budget);
            var g' := Gathered(atts, n, maxBytes, at, depth, budget);
            && (forall f :: f in g.kept ==> f in g'.kept) && (forall f :: f in g.inside ==> f in g'.inside)
            && (forall f :: f in g'.kept && f !in g.kept ==> From(f.part, at, n))
            && (forall f :: f in g'.inside && f !in g.inside ==> From(f.part, at, n))
  {
    hide Gathered, Step, Files, Closed, Inner, Shown, Descends, Skips, Opens, Named, Below;
    Unfold(atts, n, maxBytes, at, depth, budget);
    var g := Gathered(atts, n - 1, maxBytes, at, depth, budget);
    if Descends(atts[n - 1], n, maxBytes, depth, g.budget) {
      InnerNames(atts[n - 1], n, maxBytes, at, depth, g.budget);
    }
  }

  /** Nothing is named after an attachment before its turn. */
  lemma NotYet(atts: seq<Attachment>, n: nat, maxBytes: nat, at: string, depth: nat, budget: nat)
    requires 0 < n <= |atts| && depth <= NESTED_MAX
    ensures var g := Gathered(atts, n - 1, maxBytes, at, depth, budget);
            forall f: File :: From(f.part, at, n) ==> f !in g.kept && f !in g.inside
  {
    GatheredNames(atts, n - 1, maxBytes, at, depth, budget);
    hide Gathered, Index, Distinct, From;
    var g := Gathered(atts, n - 1, maxBytes, at, depth, budget);
    forall f: File | From(f.part, at, n) ensures f !in g.kept && f !in g.inside {
      FromIsWithin(f.part, at, n);
      assert f in g.kept || f in g.inside ==> f in g.kept + g.inside;
    }
  }

  /**
   Of each attachment that is no embedded part, counted from 1: it is opened as a message exactly if it is one of
   the first fifty, not too large, a message that can be read, less than three deep, and one of the twenty that
   may be opened has not been tried yet; its text is then a file. If not, it is a file itself exactly if it is one of
   the first fifty and not too large; and it is never both.
   */
  lemma EachExactly(atts: seq<Attachment>, i: nat, n: nat, maxBytes: nat, at: string, depth: nat, budget: nat)
    requires 1 <= i <= n <= |atts| && depth <= 3
    ensures var a := atts[i - 1];
            var left := Gathered(atts, i - 1, maxBytes, at, depth, budget).budget;
            var asMail := i <= 50 && a.size <= maxBytes && a.isMessage && depth < 3 && left > 0 && a.parsed.Some?;
            var g := Gathered(atts, n, maxBytes, at, depth, budget);
            && (asMail <==> exists f :: f in g.inside && f.Body? && f.part == at + "a/" + Dec(i) + "/body")
            && (Plain(at + "a/" + Dec(i), a) in g.kept <==> i <= 50 && a.size <= maxBytes && !asMail)
            && (forall f :: f in g.kept && From(f.part, at, i) ==> f == Plain(at + "a/" + Dec(i), a))
  {
    NamesStay(atts, i, n, maxBytes, at, depth, budget);
    NotYet(atts, i, maxBytes, at, depth, budget);
    Unfold(atts, i, maxBytes, at, depth, budget);
    var g := Gathered(atts, i - 1, maxBytes, at, depth, budget);
    var a := atts[i - 1];
    hide Gathered, Inner, Closed, Dec;
    var name := Named(at, i);
    assert name == at + "a/" + Dec(i);
    var text := BodyOf(Below(at, i));
    assert text == at + "a/" + Dec(i) + "/body";
    assert From(name, at, i) && From(text, at, i);
    if Descends(a, i, maxBytes, depth, g.budget) {
      ClosedInside(Inner(a, i, maxBytes, at, depth, g.budget), Below(at, i), depth + 1);
    }
  }

  /** Files go back to attachments in order: `strictly`, one each. */
  ghost predicate InOrder(files: seq<File>, at: string, strictly: bool) {
    forall j, k :: 0 <= j < k < |files| ==>
      Index(at, files[j].part) < Index(at, files[k].part)
      || (!strictly && Index(at, files[j].part) == Index(at, files[k].part))
  }

  lemma OrderCat(a: seq<File>, b: seq<File>, at: string, strictly: bool, n: int)
    requires InOrder(a, at, strictly) && (strictly ==> |b| <= 1)
    requires forall f :: f in a ==> Index(at, f.part) < n
    requires forall f :: f in b ==> Index(at, f.part) == n
    ensures InOrder(a + b, at, strictly)
  {
    hide Index;
    var all := a + b;
    forall j, k | 0 <= j < k < |all|
      ensures Index(at, all[j].part) < Index(at, all[k].part)
           || (!strictly && Index(at, all[j].part) == Index(at, all[k].part))
    {
      assert j < |a| ==> all[j] in a;
      assert k >= |a| ==> all[k] in b;
      assert j >= |a| ==> all[j] in b;
    }
  }

  lemma {:induction false} GatheredInOrder(atts: seq<Attachment>, n: nat, maxBytes: nat, at: string, depth: nat,
         budget: nat)
    requires n <= |atts| && depth <= NESTED_MAX
    ensures var g := Gathered(atts, n, maxBytes, at, depth, budget);
            && InOrder(g.kept, at, true) && InOrder(g.inside, at, false)
            && (forall f :: f in g.kept || f in g.inside ==> 1 <= Index(at, f.part) <= n)
    decreases n
  {
    hide Gathered, Step, Files, Closed, Inner, Shown, Descends, Skips, Opens, Named, Below, Index, InOrder;
    if n == 0 {
      NoneGathered(atts, maxBytes, at, depth, budget);
      NoneInOrder(at);
    } else {
      GatheredInOrder(atts, n - 1, maxBytes, at, depth, budget);
      Unfold(atts, n, maxBytes, at, depth, budget);
      var g := Gathered(atts, n - 1, maxBytes, at, depth, budget);
      var a := atts[n - 1];
      if Descends(a, n, maxBytes, depth, g.budget) {
        InnerNames(a, n, maxBytes, at, depth, g.budget);
        var more := Closed(Inner(a, n, maxBytes, at, depth, g.budget), Below(at, n), depth + 1).files;
        forall f | f in more ensures Index(at, f.part) == n { IndexOfBelow(at, n, f.part); }
        OrderCat(g.inside, more, at, false, n);
      } else if !Skips(a, n, maxBytes) {
        IndexOfBelow(at, n, Named(at, n));
        OrderCat(g.kept, [Plain(Named(at, n), a)], at, true, n);
      }
    }
  }

  lemma NoneInOrder(at: string)
    ensures InOrder([], at, true) && InOrder([], at, false)
  {
  }

  /**
   A message's files: its text, then the attachments kept in their order, then what is in the messages opened, in
   theirs; fifty at most besides the text, the rest skipped with those that were too large or too many.
   */
  lemma FilesExactly(mail: Mail, maxBytes: nat)
    ensures var atts := Shown(mail.attachments);
            var g := Gathered(atts, |atts|, maxBytes, "", 0, 20);
            var r := Files(mail, maxBytes, "", 0, 20);
            var all := g.kept + g.inside;
            && InOrder(g.kept, "", true) && InOrder(g.inside, "", false)
            && r.files != [] && r.files[0].part == "body" && r.files[1..] == all[..Min(50, |all|)]
            && r.skipped == g.skipped + |all| - Min(50, |all|)
  {
    var atts := Shown(mail.attachments);
    GatheredInOrder(atts, |atts|, maxBytes, "", 0, 20);
    hide Gathered;
    var g := Gathered(atts, |atts|, maxBytes, "", 0, 20);
    assert Files(mail, maxBytes, "", 0, 20) == Closed(g, "", 0);
  }
}
