/** What normalising the blanks of a message's text keeps: everything a reader sees. */
module HtmlBlanks {
  import opened Common
  import opened HtmlText

  /** What a reader sees of a text. */
  function Visible(s: string): string {
    if s == [] then [] else (if IsBlank(s[0]) then [] else [s[0]]) + Visible(s[1..])
  }

  lemma {:induction false} VisibleCat(a: string, b: string)
    ensures Visible(a + b) == Visible(a) + Visible(b)
  {
    hide IsBlank;
    if a == [] {
      assert a + b == b;
    } else {
      assert (a + b)[1..] == a[1..] + b;
      VisibleCat(a[1..], b);
    }
  }

  lemma {:induction false} VisibleTrimStart(s: string)
    ensures Visible(TrimStart(s)) == Visible(s)
  {
    hide IsBlank;
    if s != [] && IsBlank(s[0]) {
      VisibleTrimStart(s[1..]);
    }
  }

  lemma {:induction false} VisibleTrimEnd(s: string)
    ensures Visible(TrimEnd(s)) == Visible(s)
  {
    hide IsBlank;
    if s != [] && IsBlank(s[|s| - 1]) {
      VisibleTrimEnd(s[..|s| - 1]);
      assert s == s[..|s| - 1] + [s[|s| - 1]];
      VisibleCat(s[..|s| - 1], [s[|s| - 1]]);
      assert [s[|s| - 1]][1..] == [];
    }
  }

  lemma InlineIsBlank(c: char)
    ensures IsInline(c) ==> IsBlank(c)
  {
  }

  lemma BlankSpaces()
    ensures IsBlank(' ') && IsBlank('\n')
  {
  }

  lemma {:induction false} VisibleSqueeze(s: string)
    ensures Visible(Squeeze(s)) == Visible(s)
  {
    BlankSpaces();
    hide IsBlank, IsInline;
    if s != [] {
      var rest := s[1..];
      InlineIsBlank(s[0]);
      VisibleSqueeze(rest);
      assert ([' '] + Squeeze(rest))[1..] == Squeeze(rest) && ([s[0]] + Squeeze(rest))[1..] == Squeeze(rest);
    }
  }

  lemma {:induction false} LinesJoin(s: string)
    ensures Joined(Lines(s)) == s
  {
    if s != [] {
      var rest := Lines(s[1..]);
      LinesJoin(s[1..]);
      if s[0] == '\n' {
        assert ([[]] + rest)[1..] == rest;
        assert Joined(Lines(s)) == [] + ['\n'] + Joined(rest);
      } else {
        var all := [[s[0]] + rest[0]] + rest[1..];
        assert all[1..] == rest[1..];
        assert Joined(all) == [s[0]] + Joined(rest);
      }
    }
  }

  lemma {:induction false} VisibleLines(lines: seq<string>)
    ensures Visible(Joined(TidyLines(lines))) == Visible(Joined(lines))
  {
    hide IsBlank, Trim, Squeeze, Visible;
    if lines != [] {
      var first := lines[0];
      VisibleSqueeze(first);
      VisibleTrim(Squeeze(first));
      var tidy := TidyLines(lines);
      assert tidy[1..] == TidyLines(lines[1..]);
      if |lines| > 1 {
        VisibleLines(lines[1..]);
        VisibleCat(tidy[0] + ['\n'], Joined(tidy[1..]));
        VisibleCat(tidy[0], ['\n']);
        VisibleCat(first + ['\n'], Joined(lines[1..]));
        VisibleCat(first, ['\n']);
      }
    }
  }

  lemma VisibleTrim(s: string)
    ensures Visible(Trim(s)) == Visible(s)
  {
    VisibleTrimStart(s);
    VisibleTrimEnd(TrimStart(s));
  }

  lemma {:induction false} VisibleBreaks(s: string, run: nat)
    ensures Visible(FewBreaks(s, run)) == Visible(s)
  {
    BlankSpaces();
    hide IsBlank;
    if s != [] {
      VisibleBreaks(s[1..], if s[0] == '\n' then run + 1 else 0);
      var rest := FewBreaks(s[1..], if s[0] == '\n' then run + 1 else 0);
      assert ([s[0]] + rest)[1..] == rest && (['\n'] + rest)[1..] == rest;
      assert [] + rest == rest;
    }
  }

  /** Normalising keeps every character a reader sees, in order. */
  lemma VisibleKept(s: string)
    ensures Visible(Normal(s)) == Visible(s)
  {
    hide Visible, IsBlank, Trim, Squeeze, FewBreaks, Lines, Joined, TidyLines;
    LinesJoin(s);
    VisibleLines(Lines(s));
    var joined := Joined(TidyLines(Lines(s)));
    VisibleBreaks(joined, 0);
    VisibleTrim(FewBreaks(joined, 0));
  }

  ghost predicate ThreeBreaks(s: string, i: nat) {
    i + 3 <= |s| && s[i] == s[i + 1] == s[i + 2] == '\n'
  }

  /** How many line ends a text starts with. */
  function Breaks(s: string): nat {
    if s != [] && s[0] == '\n' then 1 + Breaks(s[1..]) else 0
  }

  lemma {:induction false} FewInARow(s: string, run: nat)
    ensures Breaks(FewBreaks(s, run)) <= if run < 2 then 2 - run else 0
    ensures forall i :: !ThreeBreaks(FewBreaks(s, run), i)
  {
    if s != [] {
      var after := if s[0] == '\n' then run + 1 else 0;
      FewInARow(s[1..], after);
      var rest := FewBreaks(s[1..], after);
      var whole := FewBreaks(s, run);
      if s[0] == '\n' && run >= 2 {
        assert whole == rest;
      } else {
        assert whole == [s[0]] + rest && whole[1..] == rest;
        forall i: nat ensures !ThreeBreaks(whole, i) {
          if i > 0 {
            assert !ThreeBreaks(rest, i - 1);
          }
        }
      }
    }
  }

  /** The text of a message never has two empty lines in a row. */
  lemma NoWideGaps(given: string)
    ensures forall i :: !ThreeBreaks(HtmlToText(given), i)
  {
    var s := Joined(TidyLines(Lines(Decode(WithoutGt(Strip(given[..Min(HTML_MAX, |given|)]))))));
    FewInARow(s, 0);
    hide ThreeBreaks, FewBreaks, Strip, Decode, WithoutGt, Lines, Joined, TidyLines;
    TrimCuts(FewBreaks(s, 0));
  }

  lemma TrimCuts(s: string)
    requires forall i :: !ThreeBreaks(s, i)
    ensures forall i :: !ThreeBreaks(Trim(s), i)
  {
    hide IsBlank;
    var a := TrimmedStart(s);
    var t := TrimStart(s);
    var b := TrimmedEnd(t);
    forall i: nat ensures !ThreeBreaks(Trim(s), i) {
      assert !ThreeBreaks(s, a + i);
    }
  }

  lemma {:induction false} TrimmedStart(s: string) returns (a: nat)
    ensures a <= |s| && TrimStart(s) == s[a..]
  {
    hide IsBlank;
    if s != [] && IsBlank(s[0]) {
      var b := TrimmedStart(s[1..]);
      a := b + 1;
    } else {
      a := 0;
    }
  }

  lemma {:induction false} TrimmedEnd(s: string) returns (b: nat)
    ensures b <= |s| && TrimEnd(s) == s[..b]
  {
    hide IsBlank;
    if s != [] && IsBlank(s[|s| - 1]) {
      b := TrimmedEnd(s[..|s| - 1]);
    } else {
      b := |s|;
    }
  }
}
