/**
 A message's HTML as plain text (apps/server/src/mail-in.ts, `htmlToText`): one scan from tag to tag,
 the entities decoded once, the blanks normalised.
 */
module HtmlText {
  import opened Common

  const HTML_MAX: nat := 2_000_000

  const COMMENT_OPEN: string := ['!', '-', '-']
  const COMMENT_CLOSE: string := ['-', '-', '>']

  // --- The scan ---------------------------------------------------------------------------------

  /** Where `pat` first is in `s`, or -1. */
  function Find(s: string, pat: string): (i: int)
    ensures -1 <= i <= |s|
    ensures i >= 0 ==> pat <= s[i..]
  {
    if pat <= s then 0
    else if s == [] then -1
    else
      var i := Find(s[1..], pat);
      if i < 0 then -1 else i + 1
  }

  function LowerOf(c: char): char {
    if 'A' <= c <= 'Z' then (c as int + 32) as char else c
  }

  function Lower(s: string): (r: string)
    ensures |r| == |s|
  {
    seq(|s|, i requires 0 <= i < |s| => LowerOf(s[i]))
  }

  predicate IsLetter(c: char) {
    'a' <= c <= 'z'
  }

  predicate IsNumeral(c: char) {
    '0' <= c <= '9'
  }

  function Alnums(s: string): string {
    if s != [] && (IsLetter(s[0]) || IsNumeral(s[0])) then [s[0]] + Alnums(s[1..]) else []
  }

  /** `[a-z][a-z0-9]*` at the start. */
  function Named(s: string): string {
    if s != [] && IsLetter(s[0]) then Alnums(s) else []
  }

  /** `/?[a-z][a-z0-9]*` at the start, or nothing. */
  function SlashNamed(s: string): string {
    if s != [] && s[0] == '/' then (if Named(s[1..]) == [] then [] else ['/'] + Named(s[1..])) else Named(s)
  }

  /** A tag's name, from the nineteen characters after its `<`. */
  function NameOf(s: string): string {
    SlashNamed(Lower(s[..Min(19, |s|)]))
  }

  predicate IsUnshown(name: string) {
    name in ["script", "style", "head", "title"]
  }

  function Unslashed(name: string): string {
    if name != [] && name[0] == '/' then name[1..] else name
  }

  predicate IsLineTag(name: string) {
    || Unslashed(name) in ["br", "p", "div", "tr", "li", "blockquote", "table", "ul", "ol"]
    || Unslashed(name) in ["h1", "h2", "h3", "h4", "h5", "h6"]
  }

  /** What a tag leaves in the text. */
  function Mark(name: string): string {
    if IsLineTag(name) then ['\n'] else if name in ["/td", "/th"] then [' '] else []
  }

  /** What of `s` is text: `s` is what is left to read. */
  function Strip(s: string): string
    decreases |s|, 1
  {
    var open := Find(s, ['<']);
    if open < 0 then s
    else
      assert s[open] == '<' by { assert ['<'][0] == s[open..][0]; }
      s[..open] + StripTag(s[open + 1..])
  }

  /** After a `<`. */
  function StripTag(s: string): string
    decreases |s|, 2
  {
    if COMMENT_OPEN <= s then
      var end := Find(s[3..], COMMENT_CLOSE);
      if end < 0 then [] else Strip(s[3..][end..][3..])
    else
      var close := Find(s, ['>']);
      if close < 0 then []
      else
        assert s[close..] != [];
        var rest := s[close + 1..];
        if IsUnshown(NameOf(s)) then Strip(AfterUnshown(rest, NameOf(s)))
        else Mark(NameOf(s)) + Strip(rest)
  }

  function EndTag(name: string): string {
    ['<', '/'] + name
  }

  /** Where `pat` first is in `s` at `from` or after, or -1. */
  function IndexOf(s: string, pat: string, from: nat): (i: int)
    requires from <= |s|
    ensures i == -1 || (from <= i && i + |pat| <= |s|)
  {
    var i := Find(s[from..], pat);
    if i < 0 then -1 else from + i
  }

  /** Where the scan goes on after an element that isn't shown, whose tag closed just before `at`. */
  function PastUnshown(html: string, lower: string, name: string, at: nat): (next: nat)
    requires |lower| == |html| && at <= |html|
    ensures at <= next <= |html|
  {
    var end := IndexOf(lower, EndTag(name), at);
    if end < 0 then |html|
    else
      var after := IndexOf(html, ['>'], end);
      if after < 0 then |html| else after + 1
  }

  /** What follows the end tag of an element that isn't shown. */
  function AfterUnshown(s: string, name: string): (r: string)
    ensures |r| <= |s|
  {
    s[PastUnshown(s, Lower(s), name, 0)..]
  }

  // --- The scan, as the loop that makes it ----------------------------------------------------------

  lemma LowerTail(s: string, k: nat)
    requires k <= |s|
    ensures Lower(s)[k..] == Lower(s[k..])
  {
  }

  lemma StripAt(html: string, at: nat)
    requires at < |html|
    ensures var open := IndexOf(html, ['<'], at);
            if open < 0 then Strip(html[at..]) == html[at..]
            else at <= open < |html| && Strip(html[at..]) == html[at..open] + StripTag(html[open + 1..])
  {
    hide StripTag;
    var s := html[at..];
    var i := Find(s, ['<']);
    if i >= 0 {
      assert s[i..] != [];
      assert s[i + 1..] == html[at + i + 1..] && s[..i] == html[at..at + i];
    }
  }

  lemma StripEnd()
    ensures Strip([]) == []
  {
  }

  lemma CommentAt(html: string, open: nat)
    requires open < |html| && COMMENT_OPEN <= html[open + 1..]
    ensures open + 4 <= |html|
    ensures var end := IndexOf(html, COMMENT_CLOSE, open + 4);
            var next := if end < 0 then |html| else end + 3;
            open < next <= |html| && StripTag(html[open + 1..]) == Strip(html[next..])
  {
    StripEnd();
    hide Strip, Find;
    assert html[|html|..] == [];
    var s := html[open + 1..];
    assert s[3..] == html[open + 4..];
    var i := Find(s[3..], COMMENT_CLOSE);
    if i >= 0 {
      assert |s[3..][i..]| >= 3;
      assert s[3..][i..][3..] == html[open + 4 + i + 3..];
    }
  }

  lemma Tails(s: string, a: nat, b: nat)
    requires a + b <= |s|
    ensures s[a..][b..] == s[a + b..]
  {
  }

  lemma IndexOfTail(s: string, pat: string, at: nat, k: nat)
    requires at + k <= |s|
    ensures var i := IndexOf(s[at..], pat, k);
            IndexOf(s, pat, at + k) == if i < 0 then -1 else at + i
  {
    Tails(s, at, k);
  }

  lemma PastUnshownTail(html: string, lower: string, name: string, at: nat)
    requires |lower| == |html| && at <= |html|
    ensures PastUnshown(html, lower, name, at) == at + PastUnshown(html[at..], lower[at..], name, 0)
  {
    hide IndexOf, EndTag;
    IndexOfTail(lower, EndTag(name), at, 0);
    var end := IndexOf(lower[at..], EndTag(name), 0);
    if end >= 0 {
      IndexOfTail(html, ['>'], at, end);
    }
  }

  lemma UnshownAt(html: string, name: string, at: nat)
    requires at <= |html|
    ensures AfterUnshown(html[at..], name) == html[PastUnshown(html, Lower(html), name, at)..]
  {
    LowerTail(html, at);
    PastUnshownTail(html, Lower(html), name, at);
    hide Lower, PastUnshown;
    Tails(html, at, PastUnshown(html[at..], Lower(html[at..]), name, 0));
  }

  lemma TagAt(html: string, open: nat)
    requires open < |html| && !(COMMENT_OPEN <= html[open + 1..])
    ensures var close := IndexOf(html, ['>'], open + 1);
            var name := NameOf(html[open + 1..]);
            if close < 0 then StripTag(html[open + 1..]) == []
            else
              && open < close < |html|
              && StripTag(html[open + 1..])
                 == if IsUnshown(name) then Strip(html[PastUnshown(html, Lower(html), name, close + 1)..])
                    else Mark(name) + Strip(html[close + 1..])
  {
    hide Strip, NameOf, Lower, AfterUnshown, PastUnshown, IsUnshown, Mark;
    var s := html[open + 1..];
    var i := Find(s, ['>']);
    if i >= 0 {
      assert s[i..] != [];
      assert s[i + 1..] == html[open + 1 + i + 1..];
      UnshownAt(html, NameOf(s), open + 1 + i + 1);
    }
  }

  /** The loop: each turn goes past the tag it found, so `at` only grows. */
  method StripTags(html: string) returns (out: string)
    ensures out == Strip(html)
  {
    hide Strip, StripTag, Find, NameOf, Lower, AfterUnshown, IsUnshown, Mark;
    var lower := Lower(html);
    out := [];
    var at := 0;
    assert html[0..] == html;
    StripEnd();
    while at < |html|
      invariant at <= |html|
      invariant out + Strip(html[at..]) == Strip(html)
      decreases |html| - at
    {
      StripAt(html, at);
      var open := IndexOf(html, ['<'], at);
      if open < 0 {
        out := out + html[at..];
        return;
      }
      assert out + (html[at..open] + StripTag(html[open + 1..])) == out + html[at..open] + StripTag(html[open + 1..]);
      out := out + html[at..open];
      if COMMENT_OPEN <= html[open + 1..] {
        CommentAt(html, open);
        var end := IndexOf(html, COMMENT_CLOSE, open + 4);
        at := if end < 0 then |html| else end + 3;
        continue;
      }
      TagAt(html, open);
      var close := IndexOf(html, ['>'], open + 1);
      if close < 0 {
        assert out + [] == out;
        return;
      }
      var name := NameOf(html[open + 1..]);
      at := close + 1;
      if IsUnshown(name) {
        at := PastUnshown(html, lower, name, at);
      } else {
        assert out + (Mark(name) + Strip(html[at..])) == out + Mark(name) + Strip(html[at..]);
        out := out + Mark(name);
      }
    }
    assert html[at..] == [] && out + [] == out;
  }

  // --- The entities, and the blanks ------------------------------------------------------------------

  function WithoutGt(s: string): string {
    if s == [] then [] else (if s[0] == '>' then [] else [s[0]]) + WithoutGt(s[1..])
  }

  function HexValue(c: char): Option<nat> {
    if '0' <= c <= '9' then Some(c as int - 48)
    else if 'a' <= c <= 'f' then Some(c as int - 87)
    else if 'A' <= c <= 'F' then Some(c as int - 55)
    else None
  }

  function DecValue(c: char): Option<nat> {
    if '0' <= c <= '9' then Some(c as int - 48) else None
  }

  /** How many characters in front are digits of the base. */
  function Digits(s: string, hex: bool): (n: nat)
    ensures n <= |s|
  {
    if s != [] && (if hex then HexValue(s[0]) else DecValue(s[0])).Some? then 1 + Digits(s[1..], hex) else 0
  }

  function Number(s: string, hex: bool): nat {
    if s == [] then 0
    else
      var d := if hex then HexValue(s[|s| - 1]) else DecValue(s[|s| - 1]);
      Number(s[..|s| - 1], hex) * (if hex then 16 else 10) + if d.Some? then d.value else 0
  }

  function Letters(s: string): (n: nat)
    ensures n <= |s|
  {
    if s != [] && IsLetter(LowerOf(s[0])) then 1 + Letters(s[1..]) else 0
  }

  /** What an entity after its `&` is, without the `;` it must end in; 0 when there is none. */
  function EntityLength(s: string): (n: nat)
    ensures n < |s| || n == 0
  {
    var n :=
      if s == [] then 0
      else if s[0] == '#' then
        if |s| > 1 && s[1] in ['x', 'X'] then
          (var d := Digits(s[2..], true); if 1 <= d <= 6 then 2 + d else 0)
        else
          (var d := Digits(s[1..], false); if 1 <= d <= 7 then 1 + d else 0)
      else
        (var l := Letters(s); if 2 <= l <= 6 then l else 0);
    if n < |s| && s[n] == ';' then n else 0
  }

  function NamedEntity(name: string): Option<char> {
    if name == "amp" then Some('&')
    else if name == "lt" then Some('<')
    else if name == "gt" then Some('>')
    else if name == "quot" then Some('"')
    else if name == "apos" then Some('\'')
    else if name == "nbsp" then Some(' ')
    else None
  }

  /** What an entity stands for, if anything: a name that is known, or a character's number. */
  function Entity(name: string): Option<char>
    requires name != []
  {
    if name[0] != '#' then NamedEntity(Lower(name))
    else
      var hex := |name| > 1 && name[1] in ['x', 'X'];
      var code := Number(if hex then name[2..] else name[1..], hex);
      if 0 < code <= 0x10FFFF && !(0xD800 <= code <= 0xDFFF) then Some(code as char) else None
  }

  /** The entities, once: what one decodes to isn't read again. */
  function Decode(s: string): string
    decreases |s|
  {
    if s == [] then []
    else if s[0] == '&' && EntityLength(s[1..]) > 0 then
      var n := EntityLength(s[1..]);
      var whole := s[..n + 2];
      (match Entity(s[1..n + 1]) case Some(c) => [c] case None => whole) + Decode(s[n + 2..])
    else [s[0]] + Decode(s[1..])
  }

  predicate IsInline(c: char) {
    c in [' ', '\t', '\U{A0}']
  }

  /** Each run of spaces, tabs and no-break spaces as one space. */
  function Squeeze(s: string): string {
    if s == [] then []
    else if IsInline(s[0]) then
      if |s| > 1 && IsInline(s[1]) then Squeeze(s[1..]) else [' '] + Squeeze(s[1..])
    else [s[0]] + Squeeze(s[1..])
  }

  function Lines(s: string): (r: seq<string>)
    ensures r != []
  {
    if s == [] then [[]]
    else if s[0] == '\n' then [[]] + Lines(s[1..])
    else
      var rest := Lines(s[1..]);
      [[s[0]] + rest[0]] + rest[1..]
  }

  function Joined(lines: seq<string>): string {
    if lines == [] then []
    else if |lines| == 1 then lines[0]
    else lines[0] + ['\n'] + Joined(lines[1..])
  }

  /** No more than two line ends in a row; `run` of them are just before. */
  function FewBreaks(s: string, run: nat): string {
    if s == [] then []
    else if s[0] == '\n' then (if run < 2 then ['\n'] else []) + FewBreaks(s[1..], run + 1)
    else [s[0]] + FewBreaks(s[1..], 0)
  }

  function TidyLines(lines: seq<string>): seq<string> {
    seq(|lines|, i requires 0 <= i < |lines| => Trim(Squeeze(lines[i])))
  }

  function Normal(s: string): string {
    Trim(FewBreaks(Joined(TidyLines(Lines(s))), 0))
  }

  function HtmlToText(given: string): string {
    Normal(Decode(WithoutGt(Strip(given[..Min(HTML_MAX, |given|)]))))
  }

  method Convert(given: string) returns (text: string)
    ensures text == HtmlToText(given)
  {
    var html := if |given| > HTML_MAX then given[..HTML_MAX] else given;
    assert html == given[..Min(HTML_MAX, |given|)];
    var out := StripTags(html);
    text := Normal(Decode(WithoutGt(out)));
  }

  // --- Text that was escaped comes back ---------------------------------------------------------------

  function Escaped(c: char): string {
    if c == '&' then ['&', 'a', 'm', 'p', ';']
    else if c == '<' then ['&', 'l', 't', ';']
    else if c == '>' then ['&', 'g', 't', ';']
    else [c]
  }

  function Escape(t: string): string {
    if t == [] then [] else Escaped(t[0]) + Escape(t[1..])
  }

  lemma {:induction false} EscapeIsPlain(t: string)
    ensures '<' !in Escape(t) && '>' !in Escape(t)
  {
    if t != [] {
      EscapeIsPlain(t[1..]);
    }
  }

  lemma {:induction false} NotThere(s: string, c: char)
    requires c !in s
    ensures Find(s, [c]) == -1
  {
    if s != [] {
      assert s[0] in s && s[0] != c;
      NotThere(s[1..], c);
    }
  }

  lemma {:induction false} NoGtToDrop(s: string)
    requires '>' !in s
    ensures WithoutGt(s) == s
  {
    if s != [] {
      NoGtToDrop(s[1..]);
    }
  }

  /** Two to six letters, in any case; or a number of one to seven digits, or of one to six hexadecimal ones. */
  predicate IsEntityName(name: string) {
    || (2 <= |name| <= 6 && AllLetters(name))
    || (2 <= |name| <= 8 && name[0] == '#' && AllDigits(name[1..], false))
    || (3 <= |name| <= 8 && name[0] == '#' && name[1] in ['x', 'X'] && AllDigits(name[2..], true))
  }

  predicate AllLetters(s: string) {
    forall i :: 0 <= i < |s| ==> IsLetter(LowerOf(s[i]))
  }

  predicate AllDigits(s: string, hex: bool) {
    forall i :: 0 <= i < |s| ==> (if hex then HexValue(s[i]) else DecValue(s[i])).Some?
  }

  lemma {:induction false} DigitsOf(s: string, rest: string, hex: bool)
    requires AllDigits(s, hex) && rest != [] && rest[0] == ';'
    ensures Digits(s + rest, hex) == |s|
  {
    if s == [] {
      assert s + rest == rest;
    } else {
      assert (s + rest)[1..] == s[1..] + rest;
      DigitsOf(s[1..], rest, hex);
    }
  }

  lemma {:induction false} DigitsAre(s: string, hex: bool)
    ensures AllDigits(s[..Digits(s, hex)], hex)
  {
    if Digits(s, hex) > 0 {
      DigitsAre(s[1..], hex);
      assert s[..Digits(s, hex)][1..] == s[1..][..Digits(s[1..], hex)];
    }
  }

  lemma {:induction false} LettersAre(s: string)
    ensures AllLetters(s[..Letters(s)])
  {
    if Letters(s) > 0 {
      LettersAre(s[1..]);
      assert s[..Letters(s)][1..] == s[1..][..Letters(s[1..])];
    }
  }

  /** Such a name before a semicolon is found whole, whatever follows. */
  lemma EntityOf(name: string, rest: string)
    requires IsEntityName(name)
    ensures EntityLength(name + [';'] + rest) == |name|
  {
    var tail := [';'] + rest;
    var s := name + tail;
    assert name + [';'] + rest == s;
    if name[0] != '#' {
      LettersOf(name, tail);
    } else if name[1] in ['x', 'X'] {
      assert !AllDigits(name[1..], false) by {
        assert name[1..][0] == name[1];
      }
      assert s[2..] == name[2..] + tail;
      DigitsOf(name[2..], tail, true);
    } else {
      assert s[1..] == name[1..] + tail;
      DigitsOf(name[1..], tail, false);
    }
  }

  /** And nothing else is found. */
  lemma EntityIsName(s: string)
    ensures var n := EntityLength(s); n > 0 ==> n < |s| && s[n] == ';' && IsEntityName(s[..n])
  {
    var n := EntityLength(s);
    if n > 0 {
      if s[0] != '#' {
        LettersAre(s);
      } else if |s| > 1 && s[1] in ['x', 'X'] {
        DigitsAre(s[2..], true);
        assert s[..n][2..] == s[2..][..n - 2];
      } else {
        DigitsAre(s[1..], false);
        assert s[..n][1..] == s[1..][..n - 1];
      }
    }
  }

  lemma {:induction false} LettersOf(name: string, rest: string)
    requires AllLetters(name) && rest != [] && rest[0] == ';'
    ensures Letters(name + rest) == |name|
  {
    if name == [] {
      assert name + rest == rest;
    } else {
      assert (name + rest)[1..] == name[1..] + rest;
      LettersOf(name[1..], rest);
    }
  }

  lemma LowerOfLetters(name: string)
    requires forall i :: 0 <= i < |name| ==> IsLetter(name[i])
    ensures Lower(name) == name
  {
  }

  lemma DecodeEntity(name: string, c: char, rest: string)
    requires 2 <= |name| <= 6 && (forall i :: 0 <= i < |name| ==> IsLetter(name[i])) && NamedEntity(name) == Some(c)
    ensures Decode(['&'] + name + [';'] + rest) == [c] + Decode(rest)
  {
    hide NamedEntity, EntityLength, Lower, Digits, Letters, Number;
    var s := ['&'] + name + [';'] + rest;
    assert s[1..] == name + [';'] + rest;
    EntityOf(name, rest);
    assert s[1..|name| + 1] == name;
    LowerOfLetters(name);
    assert s[|name| + 2..] == rest;
    assert Entity(name) == Some(c);
  }

  lemma {:induction false} DecodeUndoesEscape(t: string)
    ensures Decode(Escape(t)) == t
  {
    if t != [] {
      DecodeUndoesEscape(t[1..]);
      var rest := Escape(t[1..]);
      DecodeEscaped(t[0], rest);
    }
  }

  lemma DecodeEscaped(c: char, rest: string)
    ensures Decode(Escaped(c) + rest) == [c] + Decode(rest)
  {
    if c == '&' {
      assert Escaped(c) + rest == ['&'] + ['a', 'm', 'p'] + [';'] + rest;
      DecodeEntity(['a', 'm', 'p'], '&', rest);
    } else if c == '<' {
      assert Escaped(c) + rest == ['&'] + ['l', 't'] + [';'] + rest;
      DecodeEntity(['l', 't'], '<', rest);
    } else if c == '>' {
      assert Escaped(c) + rest == ['&'] + ['g', 't'] + [';'] + rest;
      DecodeEntity(['g', 't'], '>', rest);
    } else {
      assert ([c] + rest)[1..] == rest;
    }
  }

  /** Text escaped into HTML comes back with its blanks normalised and nothing else changed. */
  lemma EscapedComesBack(t: string)
    requires |Escape(t)| <= HTML_MAX
    ensures HtmlToText(Escape(t)) == Normal(t)
  {
    hide Normal, Decode, WithoutGt;
    var s := Escape(t);
    assert s[..Min(HTML_MAX, |s|)] == s;
    EscapeIsPlain(t);
    NotThere(s, '<');
    NoGtToDrop(s);
    DecodeUndoesEscape(t);
  }
}
