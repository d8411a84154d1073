/**
 What normalising the blanks of a message's text gives (apps/server/src/mail-in.ts, `htmlToText`): the same words,
 and a text that is normal; and one that is normal already stays as it is.
 */
module HtmlShape {
  import opened Common
  import opened HtmlText
  import opened HtmlBlanks

  // --- The words ------------------------------------------------------------------------------------------

  /** What stands between blanks, in order. */
  function Words(s: string): (r: seq<string>)
    ensures s != [] && !IsBlank(s[0]) ==> r != []
  {
    if s == [] then []
    else
      var rest := Words(s[1..]);
      if IsBlank(s[0]) then rest
      else if |s| > 1 && !IsBlank(s[1]) then [[s[0]] + rest[0]] + rest[1..]
      else [[s[0]]] + rest
  }

  predicate StartsBlank(s: string) {
    s != [] ==> IsBlank(s[0])
  }

  /** A character in front: what comes of it depends on whether what follows goes on with the word. */
  lemma WordsAfter(c: char, a: string, b: string)
    requires Words(a) == Words(b) && (StartsBlank(a) <==> StartsBlank(b))
    ensures Words([c] + a) == Words([c] + b)
  {
    hide IsBlank;
    assert ([c] + a)[1..] == a && ([c] + b)[1..] == b;
  }

  lemma BlankFirst(c: char, s: string)
    requires IsBlank(c)
    ensures Words([c] + s) == Words(s)
  {
    assert ([c] + s)[1..] == s;
  }

  lemma {:induction false} WordsApart(a: string, b: string)
    requires StartsBlank(b)
    ensures Words(a + b) == Words(a) + Words(b)
  {
    hide IsBlank;
    if a == [] {
      assert a + b == b;
    } else {
      assert (a + b)[1..] == a[1..] + b;
      WordsApart(a[1..], b);
    }
  }

  lemma {:induction false} TrimStartWords(s: string)
    ensures Words(TrimStart(s)) == Words(s)
  {
    hide IsBlank;
    if s != [] && IsBlank(s[0]) {
      TrimStartWords(s[1..]);
    }
  }

  lemma {:induction false} TrimEndWords(s: string)
    ensures Words(TrimEnd(s)) == Words(s)
  {
    hide IsBlank;
    if s != [] && IsBlank(s[|s| - 1]) {
      var last := [s[|s| - 1]];
      TrimEndWords(s[..|s| - 1]);
      assert s == s[..|s| - 1] + last;
      WordsApart(s[..|s| - 1], last);
      assert last[1..] == [];
    }
  }

  lemma TrimWords(s: string)
    ensures Words(Trim(s)) == Words(s)
  {
    TrimStartWords(s);
    TrimEndWords(TrimStart(s));
  }

  lemma {:induction false} SqueezeWords(s: string)
    ensures Words(Squeeze(s)) == Words(s) && (StartsBlank(Squeeze(s)) <==> StartsBlank(s))
    ensures s != [] ==> Squeeze(s) != []
  {
    BlankSpaces();
    hide IsBlank, IsInline;
    if s != [] {
      var rest := s[1..];
      InlineIsBlank(s[0]);
      SqueezeWords(rest);
      assert s == [s[0]] + rest;
      if IsInline(s[0]) {
        BlankFirst(s[0], rest);
        BlankFirst(' ', Squeeze(rest));
        if rest != [] { InlineIsBlank(rest[0]); }
      } else {
        WordsAfter(s[0], rest, Squeeze(rest));
      }
    }
  }

  lemma {:induction false} LinesWords(lines: seq<string>)
    ensures Words(Joined(TidyLines(lines))) == Words(Joined(lines))
  {
    BlankSpaces();
    hide IsBlank, Trim, Squeeze, Words;
    if lines != [] {
      var first := lines[0];
      SqueezeWords(first);
      TrimWords(Squeeze(first));
      var tidy := TidyLines(lines);
      assert tidy[1..] == TidyLines(lines[1..]);
      if |lines| > 1 {
        LinesWords(lines[1..]);
        var more, more' := Joined(lines[1..]), Joined(tidy[1..]);
        assert first + ['\n'] + more == first + (['\n'] + more);
        assert tidy[0] + ['\n'] + more' == tidy[0] + (['\n'] + more');
        WordsApart(first, ['\n'] + more);
        WordsApart(tidy[0], ['\n'] + more');
        BlankFirst('\n', more);
        BlankFirst('\n', more');
      }
    }
  }

  lemma {:induction false} BreaksWords(s: string, run: nat)
    ensures Words(FewBreaks(s, run)) == Words(s)
    ensures run < 2 ==> (StartsBlank(FewBreaks(s, run)) <==> StartsBlank(s)) && (s != [] ==> FewBreaks(s, run) != [])
  {
    BlankSpaces();
    hide IsBlank;
    if s != [] {
      var rest := s[1..];
      var after := if s[0] == '\n' then run + 1 else 0;
      BreaksWords(rest, after);
      assert s == [s[0]] + rest;
      hide Words;
      if s[0] == '\n' {
        BlankFirst('\n', rest);
        BlankFirst('\n', FewBreaks(rest, after));
        assert [] + FewBreaks(rest, after) == FewBreaks(rest, after);
      } else {
        WordsAfter(s[0], rest, FewBreaks(rest, after));
      }
    }
  }

  /** Normalising neither joins two words nor cuts one. */
  lemma WordsKept(s: string)
    ensures Words(Normal(s)) == Words(s)
  {
    hide *;
    LinesJoin(s);
    LinesWords(Lines(s));
    var joined := Joined(TidyLines(Lines(s)));
    BreaksWords(joined, 0);
    TrimWords(FewBreaks(joined, 0));
    NormalIs(s);
  }

  lemma NormalIs(s: string)
    ensures Normal(s) == Trim(FewBreaks(Joined(TidyLines(Lines(s))), 0))
  {
  }

  // --- A normal text ----------------------------------------------------------------------------------------

  /** Two characters that may stand side by side: no two spaces, and no other blank beside a line end. */
  predicate OkPair(a: char, b: char) {
    && !(IsInline(a) && IsInline(b))
    && (a == '\n' && IsBlank(b) ==> b == '\n') && (b == '\n' && IsBlank(a) ==> a == '\n')
  }

  ghost predicate OkPairs(s: string) {
    && (forall i :: 0 <= i < |s| && IsInline(s[i]) ==> s[i] == ' ')
    && (forall i :: 0 <= i < |s| - 1 ==> OkPair(s[i], s[i + 1]))
  }

  ghost predicate OkEnds(s: string) {
    s != [] ==> !IsBlank(s[0]) && !IsBlank(s[|s| - 1])
  }

  /** Spaces one by one and inside lines, two line ends in a row at most, and nothing blank at the ends. */
  ghost predicate IsNormal(s: string) {
    OkEnds(s) && OkPairs(s) && forall i :: !ThreeBreaks(s, i)
  }

  lemma PairsCat(a: string, b: string)
    requires OkPairs(a) && OkPairs(b) && (a != [] && b != [] ==> OkPair(a[|a| - 1], b[0]))
    ensures OkPairs(a + b)
  {
    hide OkPair, IsInline;
    var s := a + b;
    forall i | 0 <= i < |s| - 1 ensures OkPair(s[i], s[i + 1]) {
      if i >= |a| {
        assert OkPair(b[i - |a|], b[i - |a| + 1]);
      } else if i < |a| - 1 {
        assert OkPair(a[i], a[i + 1]);
      }
    }
  }

  lemma PairsWithin(s: string, a: nat, b: nat)
    requires OkPairs(s) && a <= b <= |s|
    ensures OkPairs(s[a..b])
  {
    hide OkPair, IsInline;
    forall i | 0 <= i < |s[a..b]| - 1 ensures OkPair(s[a..b][i], s[a..b][i + 1]) {
      assert OkPair(s[a + i], s[a + i + 1]);
    }
  }

  lemma OnePair(c: char)
    requires IsInline(c) ==> c == ' '
    ensures OkPairs([c])
  {
  }

  /** No line end in it, and after squeezing no two spaces in a row. */
  lemma {:induction false} SqueezePairs(s: string)
    requires '\n' !in s
    ensures OkPairs(Squeeze(s)) && '\n' !in Squeeze(s)
    ensures s != [] ==> Squeeze(s) != [] && (IsInline(Squeeze(s)[0]) <==> IsInline(s[0]))
    ensures s == [] ==> Squeeze(s) == []
  {
    if s != [] {
      var rest := s[1..];
      SqueezePairs(rest);
      if !(IsInline(s[0]) && rest != [] && IsInline(rest[0])) {
        var c := if IsInline(s[0]) then ' ' else s[0];
        OnePair(c);
        assert s[0] in s && c != '\n';
        if rest != [] { assert Squeeze(rest)[0] in Squeeze(rest); }
        PairsCat([c], Squeeze(rest));
      }
    }
  }

  lemma {:induction false} StartTrimmed(s: string)
    ensures TrimStart(s) != [] ==> !IsBlank(TrimStart(s)[0])
  {
    hide IsBlank;
    if s != [] && IsBlank(s[0]) {
      StartTrimmed(s[1..]);
    }
  }

  lemma {:induction false} EndTrimmed(s: string)
    ensures TrimEnd(s) <= s && (TrimEnd(s) != [] ==> !IsBlank(TrimEnd(s)[|TrimEnd(s)| - 1]))
  {
    hide IsBlank;
    if s != [] && IsBlank(s[|s| - 1]) {
      EndTrimmed(s[..|s| - 1]);
      assert s[..|s| - 1] <= s;
    }
  }

  /** A trimmed text is a part of it with nothing blank at its ends. */
  lemma TrimCutsOut(s: string) returns (a: nat, b: nat)
    ensures a <= b <= |s| && Trim(s) == s[a..b] && OkEnds(Trim(s))
  {
    hide IsBlank;
    a := TrimmedStart(s);
    var t := TrimStart(s);
    b := TrimmedEnd(t);
    StartTrimmed(s);
    EndTrimmed(t);
    assert Trim(s) == t[..b] == s[a..][..b] == s[a..a + b];
    b := a + b;
  }

  /** A line as it is put back: it is normal, and has no line end. */
  ghost predicate OkLine(l: string) {
    OkPairs(l) && OkEnds(l) && '\n' !in l
  }

  lemma TidyIsOk(l: string)
    requires '\n' !in l
    ensures OkLine(Trim(Squeeze(l)))
  {
    SqueezePairs(l);
    hide IsBlank, Squeeze, OkEnds, OkPairs;
    var a, b := TrimCutsOut(Squeeze(l));
    PairsWithin(Squeeze(l), a, b);
  }

  lemma {:induction false} NoBreaksIn(s: string)
    ensures forall i :: 0 <= i < |Lines(s)| ==> '\n' !in Lines(s)[i]
  {
    if s != [] {
      NoBreaksIn(s[1..]);
    }
  }

  lemma {:induction false} JoinedPairs(lines: seq<string>)
    requires forall i :: 0 <= i < |lines| ==> OkLine(lines[i])
    ensures OkPairs(Joined(lines))
    ensures Joined(lines) != [] && IsBlank(Joined(lines)[0]) ==> Joined(lines)[0] == '\n'
  {
    hide IsBlank, OkPairs;
    if |lines| > 1 {
      var first, more := lines[0], Joined(lines[1..]);
      JoinedPairs(lines[1..]);
      BreakPairs(first, more);
      assert OkLine(first);
    } else if lines == [] {
      NoPairs();
    } else {
      assert OkLine(lines[0]);
    }
  }

  lemma NoPairs()
    ensures OkPairs([])
  {
  }

  lemma BreakPairs(first: string, more: string)
    requires OkLine(first) && OkPairs(more) && (more != [] && IsBlank(more[0]) ==> more[0] == '\n')
    ensures OkPairs(first + ['\n'] + more)
  {
    OnePair('\n');
    assert first != [] ==> OkPair(first[|first| - 1], '\n');
    assert more != [] ==> OkPair('\n', more[0]);
    hide OkPairs, OkPair, OkLine;
    PairsCat(['\n'], more);
    PairsCat(first, ['\n'] + more);
    assert first + ['\n'] + more == first + (['\n'] + more);
  }

  /** Dropping line ends leaves one at least between what they are between. */
  lemma {:induction false} BreaksPairs(s: string, run: nat)
    requires OkPairs(s)
    ensures var f := FewBreaks(s, run);
            && OkPairs(f)
            && (f != [] ==> s != [] && (f[0] == s[0] || (run >= 2 && s[0] == '\n' && !IsBlank(f[0]))))
  {
    hide OkPairs;
    if s != [] {
      var rest := s[1..];
      var after := if s[0] == '\n' then run + 1 else 0;
      PairsWithin(s, 1, |s|);
      assert s[1..|s|] == rest;
      BreaksPairs(rest, after);
      if s[0] != '\n' || run < 2 {
        FirstPair(s, FewBreaks(rest, after));
      } else {
        assert [] + FewBreaks(rest, after) == FewBreaks(rest, after);
        if rest != [] { SecondPair(s); }
      }
    }
  }

  lemma FirstPair(s: string, f: string)
    requires OkPairs(s) && s != [] && OkPairs(f)
    requires f != [] ==> |s| > 1 && (f[0] == s[1] || (s[0] == '\n' && !IsBlank(f[0])))
    ensures OkPairs([s[0]] + f)
  {
    OnePair(s[0]);
    assert f != [] ==> OkPair(s[0], f[0]);
    hide OkPairs, OkPair;
    PairsCat([s[0]], f);
  }

  lemma SecondPair(s: string)
    requires OkPairs(s) && |s| > 1 && s[0] == '\n'
    ensures IsBlank(s[1]) ==> s[1] == '\n'
  {
    assert OkPair(s[0], s[1]);
  }

  /** Whatever the text, it comes out normal. */
  lemma NormalIsNormal(s: string)
    ensures IsNormal(Normal(s))
  {
    hide *;
    NoBreaksIn(s);
    NormalIs(s);
    var lines := TidyLines(Lines(s));
    AsManyLines(Lines(s));
    forall i | 0 <= i < |lines| ensures OkLine(lines[i]) { LineIsOk(Lines(s), i); }
    JoinedPairs(lines);
    var joined := Joined(lines);
    BreaksPairs(joined, 0);
    FewInARow(joined, 0);
    var few := FewBreaks(joined, 0);
    var a, b := TrimCutsOut(few);
    PairsWithin(few, a, b);
    TrimCuts(few);
    IsNormalIs(Normal(s));
  }

  lemma IsNormalIs(s: string)
    ensures IsNormal(s) <==> OkEnds(s) && OkPairs(s) && forall i :: !ThreeBreaks(s, i)
  {
    hide OkEnds, OkPairs, ThreeBreaks;
  }

  lemma AsManyLines(lines: seq<string>)
    ensures |TidyLines(lines)| == |lines|
  {
  }

  lemma LineIsOk(lines: seq<string>, i: nat)
    requires i < |lines| && forall j :: 0 <= j < |lines| ==> '\n' !in lines[j]
    ensures |TidyLines(lines)| == |lines| && OkLine(TidyLines(lines)[i])
  {
    hide OkLine, Trim, Squeeze;
    TidyIsOk(lines[i]);
  }

  // --- stays as it is -----------------------------------------------------------------------------------------

  lemma {:induction false} SqueezeStays(s: string)
    requires OkPairs(s)
    ensures Squeeze(s) == s
  {
    if s != [] {
      PairsWithin(s, 1, |s|);
      assert s[1..|s|] == s[1..];
      SqueezeStays(s[1..]);
      if |s| > 1 { assert OkPair(s[0], s[1]); }
    }
  }

  lemma TrimStays(s: string)
    requires OkEnds(s)
    ensures Trim(s) == s
  {
  }

  lemma {:induction false} BreaksStay(s: string, run: nat)
    requires forall i :: !ThreeBreaks(s, i)
    requires (run >= 2 ==> s == [] || s[0] != '\n') && (run == 1 ==> !(|s| > 1 && s[0] == s[1] == '\n'))
    ensures FewBreaks(s, run) == s
  {
    if s != [] {
      var rest := s[1..];
      assert !ThreeBreaks(s, 0);
      forall i: nat ensures !ThreeBreaks(rest, i) {
        assert !ThreeBreaks(s, i + 1);
      }
      BreaksStay(rest, if s[0] == '\n' then run + 1 else 0);
    }
  }

  /** Where a line of a text is in it: from its start or a line end, up to its end or a line end. */
  lemma {:induction false} LineAt(s: string, i: nat) returns (a: nat, b: nat)
    requires i < |Lines(s)|
    ensures a <= b <= |s| && Lines(s)[i] == s[a..b] && '\n' !in s[a..b]
    ensures (a > 0 ==> s[a - 1] == '\n') && (b < |s| ==> s[b] == '\n') && (i == 0 <==> a == 0)
  {
    if s == [] {
      a, b := 0, 0;
    } else {
      var rest := s[1..];
      if s[0] == '\n' {
        if i == 0 {
          a, b := 0, 0;
        } else {
          var c, d := LineAt(rest, i - 1);
          a, b := c + 1, d + 1;
          SliceRest(s, c, d);
        }
      } else {
        var c, d := LineAt(rest, i);
        a, b := if i == 0 then 0 else c + 1, d + 1;
        LineGoesOn(s, i, c, d);
      }
    }
  }

  lemma LineGoesOn(s: string, i: nat, c: nat, d: nat)
    requires s != [] && s[0] != '\n' && i < |Lines(s[1..])| && c <= d <= |s[1..]| && (i == 0 ==> c == 0)
    requires Lines(s[1..])[i] == s[1..][c..d] && '\n' !in s[1..][c..d]
    ensures var a := if i == 0 then 0 else c + 1;
            i < |Lines(s)| && Lines(s)[i] == s[a..d + 1] && '\n' !in s[a..d + 1]
  {
    if i == 0 {
      SliceFirst(s, d);
      assert Lines(s)[0] == [s[0]] + Lines(s[1..])[0];
    } else {
      SliceRest(s, c, d);
      assert Lines(s)[i] == Lines(s[1..])[i];
    }
  }

  lemma SliceRest(s: string, c: nat, d: nat)
    requires c <= d < |s|
    ensures s[c + 1..d + 1] == s[1..][c..d]
  {
    var a, b := s[c + 1..d + 1], s[1..][c..d];
    assert |a| == |b| && forall i :: 0 <= i < |a| ==> a[i] == s[c + 1 + i] == b[i];
  }

  lemma SliceFirst(s: string, d: nat)
    requires d < |s|
    ensures s[0..d + 1] == [s[0]] + s[1..][0..d]
  {
    var a, b := s[0..d + 1], [s[0]] + s[1..][0..d];
    assert |a| == |b| && forall i :: 0 <= i < |a| ==> a[i] == s[i] == b[i];
  }

  lemma LineStays(s: string, i: nat)
    requires OkPairs(s) && OkEnds(s) && i < |Lines(s)|
    ensures Trim(Squeeze(Lines(s)[i])) == Lines(s)[i]
  {
    hide *;
    var a, b := LineAt(s, i);
    PairsWithin(s, a, b);
    SqueezeStays(s[a..b]);
    LineEnds(s, a, b);
    TrimStays(s[a..b]);
  }

  lemma LineEnds(s: string, a: nat, b: nat)
    requires OkPairs(s) && OkEnds(s) && a <= b <= |s| && '\n' !in s[a..b]
    requires (a > 0 ==> s[a - 1] == '\n') && (b < |s| ==> s[b] == '\n')
    ensures OkEnds(s[a..b])
  {
    hide IsBlank;
    var l := s[a..b];
    if l != [] {
      assert l[0] == s[a] && l[|l| - 1] == s[b - 1] && l[0] in l && l[|l| - 1] in l;
      assert a > 0 ==> OkPair(s[a - 1], s[a]);
      assert b < |s| ==> OkPair(s[b - 1], s[b]);
    }
  }

  /** A normal text stays as it is: so normalising twice is normalising once. */
  lemma NormalStays(s: string)
    requires IsNormal(s)
    ensures Normal(s) == s
  {
    hide IsBlank, Squeeze, Trim, Lines, OkPairs, OkEnds, ThreeBreaks, FewBreaks;
    var lines := Lines(s);
    forall i | 0 <= i < |lines| ensures TidyLines(lines)[i] == lines[i] { LineStays(s, i); }
    assert TidyLines(lines) == lines;
    LinesJoin(s);
    BreaksStay(s, 0);
    TrimStays(s);
  }

  /** The text of any HTML is normal, has the words of what is shown, and is left as it is by normalising again. */
  lemma TextIsNormal(given: string)
    ensures IsNormal(HtmlToText(given)) && Normal(HtmlToText(given)) == HtmlToText(given)
    ensures Words(HtmlToText(given)) == Words(Decode(WithoutGt(Strip(given[..Min(2_000_000, |given|)]))))
  {
    var s := Decode(WithoutGt(Strip(given[..Min(2_000_000, |given|)])));
    assert HtmlToText(given) == Normal(s);
    hide *;
    NormalIsNormal(s);
    NormalStays(Normal(s));
    WordsKept(s);
  }
}
