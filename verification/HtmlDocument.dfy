/**
 What of a message's HTML reaches its text: every HTML is a row of text, comments, tags and elements
 that aren't shown, and of these only the text and what the tags stand for come out.
 */
module HtmlDocument {
  import opened Common
  import opened HtmlText

  /** `end` is what an element's end tag holds, as written, after its `</`. */
  datatype Node =
    | Text(s: string)
    | Remark(body: string)
    | Tag(inside: string)
    | Unshown(inside: string, body: string, end: string)

  /** How a document ends: all closed, or a comment, a tag or an element that never closes. */
  datatype Ending = Whole | InRemark(body: string) | InTag(inside: string) | InUnshown(inside: string, rest: string)

  datatype Doc = Doc(nodes: seq<Node>, ending: Ending)

  // --- The printer --------------------------------------------------------------------------------

  function NodeText(n: Node): string {
    match n
    case Text(s) => s
    case Remark(body) => ['<'] + (COMMENT_OPEN + (body + COMMENT_CLOSE))
    case Tag(inside) => ['<'] + (inside + ['>'])
    case Unshown(inside, body, end) => ['<'] + (inside + ['>'] + (body + EndTag(end) + ['>']))
  }

  function EndingText(e: Ending): string {
    match e
    case Whole => []
    case InRemark(body) => ['<'] + (COMMENT_OPEN + body)
    case InTag(inside) => ['<'] + inside
    case InUnshown(inside, rest) => ['<'] + (inside + ['>'] + rest)
  }

  function Print(d: Doc): string
    decreases |d.nodes|
  {
    if d.nodes == [] then EndingText(d.ending) else NodeText(d.nodes[0]) + Print(d.(nodes := d.nodes[1..]))
  }

  /** The inside of a tag: it closes at the first `>`, and is no comment. */
  predicate IsInside(inside: string) {
    '>' !in inside && !(COMMENT_OPEN <= inside)
  }

  ghost predicate NodeFits(n: Node) {
    match n
    case Text(s) => '<' !in s
    case Remark(body) => Find(body + COMMENT_CLOSE, COMMENT_CLOSE) == |body|
    case Tag(inside) => IsInside(inside) && !IsUnshown(NameOf(inside))
    case Unshown(inside, body, end) =>
      && IsInside(inside) && IsUnshown(NameOf(inside)) && '>' !in end
      && Find(Lower(body + EndTag(end)), EndTag(NameOf(inside))) == |body|
  }

  ghost predicate EndingFits(e: Ending) {
    match e
    case Whole => true
    case InRemark(body) => Find(body, COMMENT_CLOSE) < 0
    case InTag(inside) => IsInside(inside)
    case InUnshown(inside, rest) =>
      && IsInside(inside) && IsUnshown(NameOf(inside))
      && AfterUnshown(rest, NameOf(inside)) == [] && NeverEnds(rest, NameOf(inside))
  }

  ghost predicate NeverEnds(rest: string, name: string) {
    var end := Find(Lower(rest), EndTag(name));
    end < 0 || '>' !in rest[end..]
  }

  ghost predicate Fits(d: Doc) {
    EndingFits(d.ending) && forall n :: n in d.nodes ==> NodeFits(n)
  }

  /** What comes out: nothing of comments, of elements that aren't shown, or of the ending. */
  function Shown(nodes: seq<Node>): string {
    if nodes == [] then []
    else
      (match nodes[0]
       case Text(s) => s
       case Remark(_) => []
       case Tag(inside) => Mark(NameOf(inside))
       case Unshown(_, _, _) => [])
      + Shown(nodes[1..])
  }

  // --- Finding --------------------------------------------------------------------------------------

  lemma {:induction false} FoundStays(a: string, b: string, pat: string)
    requires Find(a, pat) >= 0
    ensures Find(a + b, pat) == Find(a, pat)
  {
    if pat <= a {
      assert a <= a + b;
    } else if a != [] {
      assert (a + b)[1..] == a[1..] + b;
      assert !(pat <= a + b) by {
        var i := Find(a[1..], pat);
        assert pat <= a[1..][i..];
        assert |pat| <= |a|;
        assert (a + b)[..|pat|] == a[..|pat|];
      }
      FoundStays(a[1..], b, pat);
    }
  }

  lemma {:induction false} FoundAt(s: string, c: char, rest: string)
    requires c !in s
    ensures Find(s + [c] + rest, [c]) == |s|
  {
    if s == [] {
      assert s + [c] + rest == [c] + rest;
    } else {
      assert (s + [c] + rest)[1..] == s[1..] + [c] + rest;
      assert (s + [c] + rest)[0] == s[0] && s[0] in s;
      FoundAt(s[1..], c, rest);
    }
  }

  /** The first occurrence splits a text. */
  lemma {:induction false} FirstSplits(s: string, c: char)
    ensures var i := Find(s, [c]);
            if i < 0 then c !in s else i < |s| && s[i] == c && c !in s[..i] && s == s[..i] + [c] + s[i + 1..]
  {
    if s != [] {
      FirstSplits(s[1..], c);
      if s[0] == c {
        assert [c] <= s;
      } else {
        assert !([c] <= s);
      }
    }
  }

  // --- A tag's name ----------------------------------------------------------------------------------

  lemma {:induction false} AlnumsStop(s: string, rest: string)
    ensures Alnums(s + (['>'] + rest)) == Alnums(s)
  {
    var whole := s + (['>'] + rest);
    if s == [] {
      assert whole[0] == '>';
    } else {
      assert whole[0] == s[0] && whole[1..] == s[1..] + (['>'] + rest);
      AlnumsStop(s[1..], rest);
    }
  }

  lemma SlashNamedStops(s: string, rest: string)
    ensures SlashNamed(s + (['>'] + rest)) == SlashNamed(s)
  {
    var whole := s + (['>'] + rest);
    AlnumsStop(s, rest);
    if s != [] {
      assert whole[0] == s[0] && whole[1..] == s[1..] + (['>'] + rest);
      AlnumsStop(s[1..], rest);
      hide Alnums;
      assert Named(whole[1..]) == Named(s[1..]);
      assert Named(whole) == Named(s);
    } else {
      assert whole[0] == '>';
    }
  }

  /** What a tag is called doesn't depend on what follows it. */
  lemma NameIsInside(inside: string, rest: string)
    ensures NameOf(inside + ['>'] + rest) == NameOf(inside)
  {
    var whole := inside + ['>'] + rest;
    var n := Min(19, |whole|);
    if |inside| < n {
      var more := whole[|inside| + 1..n];
      assert whole[..n] == inside + (['>'] + more);
      assert Lower(whole[..n]) == Lower(inside) + (['>'] + Lower(more));
      hide Lower, SlashNamed;
      SlashNamedStops(Lower(inside), Lower(more));
      assert inside[..Min(19, |inside|)] == inside;
    } else {
      assert whole[..n] == inside[..n];
    }
  }

  // --- The scan of a printed document ------------------------------------------------------------------

  lemma StripsTo(before: string, after: string)
    requires '<' !in before
    ensures Strip(before + ['<'] + after) == before + StripTag(after)
  {
    hide StripTag, Find;
    var s := before + ['<'] + after;
    FoundAt(before, '<', after);
    assert s[..|before|] == before && s[|before| + 1..] == after;
  }

  lemma OpenTag(s: string)
    ensures Strip(['<'] + s) == StripTag(s)
  {
    hide Strip, StripTag;
    StripsTo([], s);
    assert [] + ['<'] + s == ['<'] + s;
    assert [] + StripTag(s) == StripTag(s);
  }

  lemma NoTags(s: string)
    requires '<' !in s
    ensures Strip(s) == s
  {
    NotThere(s, '<');
  }

  /** A text cut at the first `c`. */
  lemma SplitChar(s: string, c: char) returns (a: string, b: string)
    requires c in s
    ensures s == a + [c] + b && c !in a
  {
    FirstSplits(s, c);
    var i := Find(s, [c]);
    a, b := s[..i], s[i + 1..];
  }

  lemma TextIsShown(s: string, rest: string)
    requires '<' !in s
    ensures Strip(s + rest) == s + Strip(rest)
  {
    hide Find, Strip, StripTag;
    if '<' in rest {
      var before, after := SplitChar(rest, '<');
      StripsTo(before, after);
      StripsTo(s + before, after);
      assert s + rest == s + before + ['<'] + after;
      assert s + (before + StripTag(after)) == s + before + StripTag(after);
    } else {
      NoTags(rest);
      NoTags(s + rest);
    }
  }

  lemma RemarkIsNot(body: string, rest: string)
    requires NodeFits(Remark(body))
    ensures StripTag(COMMENT_OPEN + (body + COMMENT_CLOSE) + rest) == Strip(rest)
  {
    FoundStays(body + COMMENT_CLOSE, rest, COMMENT_CLOSE);
    hide Strip, Find;
    AfterThree(COMMENT_OPEN, (body + COMMENT_CLOSE), rest);
    AfterBoth(body, COMMENT_CLOSE, rest);
  }

  lemma AfterThree(a: string, b: string, c: string)
    ensures (a + b + c)[|a|..] == b + c && a <= a + b + c
  {
  }

  lemma AfterBoth(a: string, b: string, c: string)
    ensures |a| <= |a + b + c| && (a + b + c)[|a|..] == b + c && (a + b + c)[|a|..][|b|..] == c
  {
  }

  /** A tag closes at its first `>`, and goes by the name inside it. */
  lemma TagCloses(inside: string, rest: string)
    requires IsInside(inside)
    ensures StripTag(inside + ['>'] + rest)
         == if IsUnshown(NameOf(inside)) then Strip(AfterUnshown(rest, NameOf(inside)))
           else Mark(NameOf(inside)) + Strip(rest)
  {
    var s := inside + ['>'] + rest;
    FoundAt(inside, '>', rest);
    NameIsInside(inside, rest);
    assert s[|inside| + 1..] == rest;
    assert !(COMMENT_OPEN <= s) by {
      if COMMENT_OPEN <= s {
        CommentNeedsMore(inside, rest);
      }
    }
    hide Strip, Find, NameOf, AfterUnshown, IsUnshown, Mark;
  }

  lemma CommentNeedsMore(inside: string, rest: string)
    requires '>' !in inside && COMMENT_OPEN <= inside + ['>'] + rest
    ensures COMMENT_OPEN <= inside
  {
    var s := inside + ['>'] + rest;
    assert forall i :: 0 <= i < 3 ==> s[i] == COMMENT_OPEN[i];
    assert s[|inside|] == '>';
    assert |inside| >= 3;
    assert s[..3] == inside[..3];
  }

  lemma EndTagFound(upTo: string, rest: string, name: string, k: nat)
    requires Find(Lower(upTo), EndTag(name)) == k
    ensures IndexOf(Lower(upTo + rest), EndTag(name), 0) == k
  {
    assert Lower(upTo + rest) == Lower(upTo) + Lower(rest);
    hide Lower, EndTag;
    FoundStays(Lower(upTo), Lower(rest), EndTag(name));
    var low := Lower(upTo + rest);
    assert low[0..] == low;
  }

  lemma CloseFound(body: string, tag: string, rest: string)
    requires '>' !in tag
    ensures IndexOf(body + tag + (['>'] + rest), ['>'], |body|) == |body + tag|
  {
    var s := body + tag + (['>'] + rest);
    assert s[|body|..] == tag + ['>'] + rest;
    FoundAt(tag, '>', rest);
    hide Find;
  }

  lemma UnshownIsSkipped(body: string, end: string, rest: string, name: string)
    requires Find(Lower(body + EndTag(end)), EndTag(name)) == |body| && '>' !in end
    ensures AfterUnshown(body + EndTag(end) + (['>'] + rest), name) == rest
  {
    var upTo := body + EndTag(end);
    var s := upTo + (['>'] + rest);
    assert '>' !in EndTag(end);
    hide Find, Lower, EndTag, IndexOf;
    EndTagFound(upTo, ['>'] + rest, name, |body|);
    CloseFound(body, EndTag(end), rest);
    assert PastUnshown(s, Lower(s), name, 0) == |upTo| + 1;
    hide PastUnshown;
    CutAfter(upTo, '>', rest);
  }

  lemma CutAfter(a: string, c: char, b: string)
    ensures (a + ([c] + b))[|a| + 1..] == b
  {
  }

  lemma NodeIsShown(n: Node, rest: string)
    requires NodeFits(n)
    ensures Strip(NodeText(n) + rest) == Shown([n]) + Strip(rest)
  {
    hide Strip, StripTag, Find, Lower, NameOf, AfterUnshown, IsUnshown, Mark, Shown;
    ShownOne(n);
    match n
    case Text(s) =>
      TextIsShown(s, rest);
    case Remark(body) =>
      RemarkPassed(body, rest);
    case Tag(inside) =>
      TagPassed(inside, rest);
      TagCloses(inside, rest);
    case Unshown(inside, body, end) =>
      UnshownPassed(inside, body, end, rest);
  }

  lemma UnshownPassed(inside: string, body: string, end: string, rest: string)
    requires NodeFits(Unshown(inside, body, end))
    ensures Strip(NodeText(Unshown(inside, body, end)) + rest) == Strip(rest)
  {
    hide Strip, StripTag, Find, Lower, NameOf, AfterUnshown, IsUnshown, Mark, EndTag;
    var after := body + EndTag(end) + (['>'] + rest);
    assert NodeText(Unshown(inside, body, end)) + rest == NodeText(Tag(inside)) + after;
    hide NodeText;
    TagPassed(inside, after);
    TagCloses(inside, after);
    UnshownIsSkipped(body, end, rest, NameOf(inside));
  }

  lemma ShownOne(n: Node)
    ensures Shown([n]) == match n
                          case Text(s) => s
                          case Remark(_) => []
                          case Tag(inside) => Mark(NameOf(inside))
                          case Unshown(_, _, _) => []
  {
    hide Mark, NameOf;
    assert [n][1..] == [];
    assert Shown([]) == [];
  }

  lemma RemarkPassed(body: string, rest: string)
    requires NodeFits(Remark(body))
    ensures Strip(NodeText(Remark(body)) + rest) == Strip(rest)
  {
    hide Strip, StripTag, Find;
    var inner := COMMENT_OPEN + (body + COMMENT_CLOSE) + rest;
    assert NodeText(Remark(body)) + rest == ['<'] + inner;
    OpenTag(inner);
    RemarkIsNot(body, rest);
  }

  lemma TagPassed(inside: string, rest: string)
    ensures Strip(NodeText(Tag(inside)) + rest) == StripTag(inside + ['>'] + rest)
  {
    hide Strip, StripTag;
    assert NodeText(Tag(inside)) + rest == ['<'] + (inside + ['>'] + rest);
    OpenTag(inside + ['>'] + rest);
  }

  lemma EndingIsNot(e: Ending)
    requires EndingFits(e)
    ensures Strip(EndingText(e)) == []
  {
    hide Strip, StripTag, NameOf, AfterUnshown, IsUnshown, Mark;
    StripEnd();
    match e
    case Whole =>
    case InRemark(body) =>
      OpenTag(COMMENT_OPEN + body);
      RemarkNeverEnds(body);
    case InTag(inside) =>
      OpenTag(inside);
      TagNeverEnds(inside);
    case InUnshown(inside, rest) =>
      OpenTag(inside + ['>'] + rest);
      TagCloses(inside, rest);
  }

  lemma RemarkNeverEnds(body: string)
    requires Find(body, COMMENT_CLOSE) < 0
    ensures StripTag(COMMENT_OPEN + body) == []
  {
    assert (COMMENT_OPEN + body)[3..] == body;
  }

  lemma TagNeverEnds(inside: string)
    requires IsInside(inside)
    ensures StripTag(inside) == []
  {
    NotThere(inside, '>');
  }

  /** The scan of a printed document is its text and what its tags stand for, whatever else is in it. */
  lemma {:induction false} ShownOnly(d: Doc)
    requires Fits(d)
    ensures Strip(Print(d)) == Shown(d.nodes)
    decreases |d.nodes|
  {
    hide Strip, NodeText, NodeFits, EndingFits, EndingText;
    if d.nodes == [] {
      EndingIsNot(d.ending);
    } else {
      var n := d.nodes[0];
      var rest := d.(nodes := d.nodes[1..]);
      assert n in d.nodes && forall m :: m in d.nodes[1..] ==> m in d.nodes;
      NodeIsShown(n, Print(rest));
      ShownOnly(rest);
      ShownFirst(d.nodes);
    }
  }

  lemma ShownFirst(nodes: seq<Node>)
    requires nodes != []
    ensures Shown(nodes) == Shown([nodes[0]]) + Shown(nodes[1..])
  {
    ShownOne(nodes[0]);
    hide Mark, NameOf;
  }

  // --- Every HTML is such a document ----------------------------------------------------------------------

  lemma {:induction false} FoundBefore(a: string, b: string, pat: string)
    requires Find(a + b, pat) >= 0 && Find(a + b, pat) + |pat| <= |a|
    ensures Find(a, pat) == Find(a + b, pat)
  {
    if pat <= a + b {
      assert (a + b)[..|a|] == a;
      assert pat <= a;
    } else {
      assert a != [];
      assert (a + b)[1..] == a[1..] + b;
      assert a <= a + b;
      FoundBefore(a[1..], b, pat);
    }
  }

  lemma CutOut(s: string, pat: string, i: nat)
    requires i <= |s| && pat <= s[i..]
    ensures s == s[..i] + pat + s[i..][|pat|..]
  {
    var t := s[i..];
    assert t == pat + t[|pat|..];
    assert s == s[..i] + t;
  }

  /** A text, cut at the first occurrence of `pat`. */
  lemma SplitFirst(s: string, pat: string) returns (a: string, b: string)
    requires Find(s, pat) >= 0
    ensures s == a + pat + b && |a| == Find(s, pat) && Find(a + pat, pat) == |a|
  {
    var i := Find(s, pat);
    a, b := s[..i], s[i..][|pat|..];
    CutOut(s, pat, i);
    FoundBefore(a + pat, b, pat);
  }

  lemma {:induction false} NameHasNoGt(s: string)
    ensures '>' !in Alnums(s)
  {
    if s != [] {
      NameHasNoGt(s[1..]);
    }
  }

  lemma NameOfHasNoGt(s: string)
    ensures '>' !in NameOf(s)
  {
    var t := Lower(s[..Min(19, |s|)]);
    hide Lower;
    NameHasNoGt(t);
    if t != [] {
      NameHasNoGt(t[1..]);
    }
  }

  /** An end tag found in a text lower-cased is there in the text, its name in any case, before the next `>`. */
  lemma EndTagThere(t: string, left: string, name: string)
    requires EndTag(name) <= Lower(t + ['>'] + left) && '>' !in name
    ensures |t| >= |EndTag(name)| && t == EndTag(t[2..])
  {
    var s := t + ['>'] + left;
    assert forall i :: 0 <= i < |EndTag(name)| ==> LowerOf(s[i]) == EndTag(name)[i];
    assert s[0] == '<' && s[1] == '/' && s[|t|] == '>';
    assert '>' !in EndTag(name) && LowerOf('>') == '>';
  }

  lemma LowerCat(a: string, b: string)
    ensures Lower(a + b) == Lower(a) + Lower(b)
  {
  }

  /** An element that isn't shown and is closed: its content, and what its end tag holds. */
  lemma SplitUnshown(rest: string, name: string) returns (body: string, end: string, left: string)
    requires '>' !in name
    requires var i := Find(Lower(rest), EndTag(name)); i >= 0 && '>' in rest[i..]
    ensures rest == body + EndTag(end) + ['>'] + left && '>' !in end
    ensures Find(Lower(body + EndTag(end)), EndTag(name)) == |body|
  {
    var i := Find(Lower(rest), EndTag(name));
    var from := rest[i..];
    body := rest[..i];
    LowerTail(rest, i);
    var t: string;
    t, left := SplitChar(from, '>');
    hide Find;
    EndTagThere(t, left, name);
    end := t[2..];
    assert forall c :: c in end ==> c in t;
    UnshownBody(rest, body, t, left, name);
  }

  lemma UnshownBody(rest: string, body: string, t: string, left: string, name: string)
    requires rest == body + (t + ['>'] + left) && |t| >= |EndTag(name)|
    requires Find(Lower(rest), EndTag(name)) == |body|
    ensures rest == body + t + ['>'] + left && Find(Lower(body + t), EndTag(name)) == |body|
  {
    assert rest == body + t + (['>'] + left);
    LowerCat(body + t, ['>'] + left);
    hide Lower, EndTag;
    FoundBefore(Lower(body + t), Lower(['>'] + left), EndTag(name));
  }

  lemma NeverClosed(rest: string, name: string)
    requires NeverEnds(rest, name)
    ensures AfterUnshown(rest, name) == []
  {
    var low := Lower(rest);
    var end := Find(low, EndTag(name));
    assert low[0..] == low && rest[|rest|..] == [];
    if end >= 0 {
      NotThere(rest[end..], '>');
    }
    hide Find, Lower, EndTag;
    assert PastUnshown(rest, low, name, 0) == |rest|;
  }

  /** What a `<` begins and what follows it, or how the document ends. */
  lemma TagIsThere(s: string) returns (n: Option<Node>, rest: string, e: Ending)
    ensures match n
            case Some(node) => NodeFits(node) && NodeText(node) + rest == ['<'] + s && |rest| <= |s|
            case None => EndingFits(e) && EndingText(e) == ['<'] + s
  {
    n, rest, e := None, [], Whole;
    if COMMENT_OPEN <= s {
      var t := s[3..];
      assert s == COMMENT_OPEN + t;
      if Find(t, COMMENT_CLOSE) < 0 {
        e := InRemark(t);
      } else {
        var body: string;
        body, rest := SplitFirst(t, COMMENT_CLOSE);
        n := Some(Remark(body));
        hide Find;
        assert ['<'] + (COMMENT_OPEN + (body + COMMENT_CLOSE)) + rest
          == ['<'] + (COMMENT_OPEN + (body + COMMENT_CLOSE + rest));
      }
    } else if '>' !in s {
      e := InTag(s);
    } else {
      var inside: string;
      inside, rest := SplitChar(s, '>');
      assert inside <= s;
      n, rest, e := ClosedTagIsThere(inside, rest);
    }
  }

  lemma ClosedTagIsThere(inside: string, after: string) returns (n: Option<Node>, rest: string, e: Ending)
    requires IsInside(inside)
    ensures match n
            case Some(node) => NodeFits(node) && NodeText(node) + rest == ['<'] + (inside + ['>'] + after)
              && |rest| <= |after|
            case None => EndingFits(e) && EndingText(e) == ['<'] + (inside + ['>'] + after)
  {
    n, rest, e := None, [], Whole;
    var name := NameOf(inside);
    NameOfHasNoGt(inside);
    hide NameOf, IsUnshown, IsInside, Find, Lower, EndTag, AfterUnshown;
    if !IsUnshown(name) {
      n, rest := Some(Tag(inside)), after;
      assert ['<'] + (inside + ['>']) + after == ['<'] + (inside + ['>'] + after);
    } else if NeverEnds(after, name) {
      NeverClosed(after, name);
      e := InUnshown(inside, after);
    } else {
      var body, end: string;
      body, end, rest := SplitUnshown(after, name);
      n := Some(Unshown(inside, body, end));
      UnshownPrinted(inside, body, end, rest);
    }
  }

  lemma UnshownPrinted(inside: string, body: string, end: string, rest: string)
    ensures NodeText(Unshown(inside, body, end)) + rest
        == ['<'] + (inside + ['>'] + (body + EndTag(end) + ['>'] + rest))
  {
    hide EndTag;
  }

  lemma PrintCons(n: Node, nodes: seq<Node>, e: Ending)
    ensures Print(Doc([n] + nodes, e)) == NodeText(n) + Print(Doc(nodes, e))
  {
    hide NodeText, EndingText;
    assert ([n] + nodes)[1..] == nodes;
  }

  /** Every HTML is a document as printed: so what is said of documents is said of any HTML. */
  lemma {:induction false} EveryHtmlIsADocument(html: string) returns (d: Doc)
    ensures Fits(d) && Print(d) == html
    decreases |html|
  {
    hide Find, NodeFits, EndingFits, NodeText, EndingText, Print, Fits;
    if '<' !in html {
      d := OnlyText(html);
    } else {
      var before, after := SplitChar(html, '<');
      var n, rest, e := TagIsThere(after);
      var inner: Doc;
      match n {
        case Some(node) =>
          var d' := EveryHtmlIsADocument(rest);
          inner := NodeFirst(node, d');
        case None =>
          inner := EndOnly(e);
      }
      d := TextOnly(before, inner);
      assert before + (['<'] + after) == html;
    }
  }

  lemma OnlyText(s: string) returns (d: Doc)
    requires '<' !in s
    ensures Fits(d) && Print(d) == s
  {
    d := EndOnly(Whole);
    d := TextOnly(s, d);
    assert s + [] == s;
  }

  lemma TextOnly(s: string, d: Doc) returns (d': Doc)
    requires '<' !in s && Fits(d)
    ensures Fits(d') && Print(d') == s + Print(d)
  {
    d' := NodeFirst(Text(s), d);
  }

  lemma NodeFirst(n: Node, d: Doc) returns (d': Doc)
    requires NodeFits(n) && Fits(d)
    ensures Fits(d') && Print(d') == NodeText(n) + Print(d)
  {
    hide NodeFits, EndingFits, NodeText, Print;
    d' := Doc([n] + d.nodes, d.ending);
    PrintCons(n, d.nodes, d.ending);
    assert d == Doc(d.nodes, d.ending);
  }

  lemma EndOnly(e: Ending) returns (d: Doc)
    requires EndingFits(e)
    ensures Fits(d) && Print(d) == EndingText(e)
  {
    d := Doc([], e);
  }

  /** The text of any HTML is that of the document it is, up to the two-millionth character. */
  lemma TextOfAny(given: string) returns (d: Doc)
    ensures Fits(d) && Print(d) == given[..Min(HTML_MAX, |given|)]
    ensures HtmlToText(given) == Normal(Decode(WithoutGt(Shown(d.nodes))))
  {
    d := EveryHtmlIsADocument(given[..Min(HTML_MAX, |given|)]);
    ShownOnly(d);
    hide Normal, Decode, WithoutGt, Strip;
  }

  /** The same to a reader: hidden both (a comment, or an element that isn't shown), or the same. */
  predicate SameShown(a: Node, b: Node) {
    || ((a.Remark? || a.Unshown?) && (b.Remark? || b.Unshown?))
    || (a.Tag? && b.Tag? && Mark(NameOf(a.inside)) == Mark(NameOf(b.inside)))
    || a == b
  }

  lemma {:induction false} SameOut(a: seq<Node>, b: seq<Node>)
    requires |a| == |b| && forall i :: 0 <= i < |a| ==> SameShown(a[i], b[i])
    ensures Shown(a) == Shown(b)
  {
    hide Mark, NameOf;
    if a != [] {
      assert SameShown(a[0], b[0]);
      forall i | 0 <= i < |a| - 1 ensures SameShown(a[1..][i], b[1..][i]) {
        assert SameShown(a[i + 1], b[i + 1]);
      }
      SameOut(a[1..], b[1..]);
    }
  }

  /** What comments, elements that aren't shown, attributes and an unclosed end hold never affects the text. */
  lemma InsidesDoNotShow(a: Doc, b: Doc)
    requires Fits(a) && Fits(b) && |Print(a)| <= HTML_MAX && |Print(b)| <= HTML_MAX
    requires |a.nodes| == |b.nodes| && forall i :: 0 <= i < |a.nodes| ==> SameShown(a.nodes[i], b.nodes[i])
    ensures HtmlToText(Print(a)) == HtmlToText(Print(b))
  {
    ShownOnly(a);
    ShownOnly(b);
    SameOut(a.nodes, b.nodes);
    hide Normal, Decode, WithoutGt, Strip, Print, SameShown;
    assert Print(a)[..|Print(a)|] == Print(a) && Print(b)[..|Print(b)|] == Print(b);
  }
}
