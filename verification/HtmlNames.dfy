/**
 What the tags and entities of a message's HTML stand for, by name (apps/server/src/mail-in.ts, `htmlToText`).
 */
module HtmlNames {
  import opened Common
  import opened HtmlText
  import opened HtmlDocument

  predicate IsNameChar(c: char) {
    'a' <= c <= 'z' || 'A' <= c <= 'Z' || '0' <= c <= '9'
  }

  /** A letter, then letters and digits. */
  predicate IsTagName(name: string) {
    name != [] && !('0' <= name[0] <= '9') && forall i :: 0 <= i < |name| ==> IsNameChar(name[i])
  }

  /** What follows the name in a tag: it doesn't go on, nor end the tag. */
  predicate IsRestOfTag(attrs: string) {
    '>' !in attrs && (attrs == [] || !IsNameChar(attrs[0]))
  }

  lemma {:induction false} AlnumsOf(name: string, rest: string)
    requires forall i :: 0 <= i < |name| ==> IsNameChar(name[i])
    requires rest == [] || !IsNameChar(rest[0])
    ensures Alnums(Lower(name + rest)) == Lower(name)
  {
    if name == [] {
      assert name + rest == rest;
      assert rest != [] ==> Lower(rest)[0] == LowerOf(rest[0]);
    } else {
      var s := Lower(name + rest);
      assert (name + rest)[1..] == name[1..] + rest;
      AlnumsOf(name[1..], rest);
      assert s[0] == LowerOf(name[0]) && s[1..] == Lower(name[1..] + rest);
      assert Lower(name) == [LowerOf(name[0])] + Lower(name[1..]);
    }
  }

  /** A tag goes by the name it starts with, in lower case, with the slash of an end tag. */
  lemma NameAtStart(slash: bool, name: string, attrs: string)
    requires IsTagName(name) && |name| <= 18 && IsRestOfTag(attrs)
    ensures NameOf(Slash(slash) + name + attrs) == Slash(slash) + Lower(name)
  {
    var pre := Slash(slash);
    var s := pre + name + attrs;
    var n := Min(19, |s|);
    var cut := attrs[..n - |pre| - |name|];
    assert s[..n] == pre + name + cut;
    AlnumsOf(name, cut);
    var low, rest := Lower(s[..n]), Lower(name + cut);
    assert low == pre + rest;
    assert rest[0] == LowerOf(name[0]) && IsLetter(rest[0]);
    hide Lower, Alnums;
    assert Named(rest) == Lower(name);
    if slash {
      assert low[0] == '/' && low[1..] == rest;
    } else {
      assert low == rest;
      assert [] + Lower(name) == Lower(name);
    }
  }

  function Slash(slash: bool): string {
    if slash then ['/'] else []
  }

  lemma InsideFits(slash: bool, name: string, attrs: string)
    requires IsTagName(name) && IsRestOfTag(attrs)
    ensures IsInside(Slash(slash) + name + attrs)
  {
    var inside := Slash(slash) + name + attrs;
    assert !IsNameChar('!') && !IsNameChar('>');
    assert inside[0] == if slash then '/' else name[0];
    assert inside[0] != COMMENT_OPEN[0];
    assert '>' !in name;
  }

  lemma OpenedTag(inside: string, rest: string)
    requires IsInside(inside)
    ensures Strip(['<'] + inside + ['>'] + rest)
         == if IsUnshown(NameOf(inside)) then Strip(AfterUnshown(rest, NameOf(inside)))
            else Mark(NameOf(inside)) + Strip(rest)
  {
    hide *;
    TagCloses(inside, rest);
    OpenTag(inside + ['>'] + rest);
    assert ['<'] + inside + ['>'] + rest == ['<'] + (inside + ['>'] + rest);
  }

  /** A tag as it is written. */
  function TagText(slash: bool, name: string, attrs: string): string {
    ['<'] + (Slash(slash) + name + attrs) + ['>']
  }

  /** A tag comes out as what its name stands for. */
  lemma TagComesOut(slash: bool, name: string, attrs: string, rest: string)
    requires IsTagName(name) && |name| <= 18 && IsRestOfTag(attrs)
    ensures var low := Slash(slash) + Lower(name);
            Strip(TagText(slash, name, attrs) + rest)
            == if IsUnshown(low) then Strip(AfterUnshown(rest, low)) else Mark(low) + Strip(rest)
  {
    NameAtStart(slash, name, attrs);
    InsideFits(slash, name, attrs);
    OpenedTag(Slash(slash) + name + attrs, rest);
    hide *;
  }

  /**
   What a tag comes to, by its name in any case: a line end for those that begin or end a block or a line, a space
   at the end of a table's cell, and nothing for any other. Those of elements that aren't shown are apart.
   */
  lemma TagStandsFor(slash: bool, name: string, attrs: string, rest: string)
    requires IsTagName(name) && |name| <= 18 && IsRestOfTag(attrs)
    requires !slash ==> Lower(name) !in ["script", "style", "head", "title"]
    ensures Strip(TagText(slash, name, attrs) + rest) ==
            (if Lower(name) in ["br", "p", "div", "tr", "li", "blockquote", "table", "ul", "ol",
                                "h1", "h2", "h3", "h4", "h5", "h6"] then ['\n']
             else if slash && Lower(name) in ["td", "th"] then [' ']
             else []) + Strip(rest)
  {
    TagComesOut(slash, name, attrs, rest);
    var low := Lower(name);
    assert low[0] != '/';
    MarkOf(slash, low);
    hide *;
  }

  lemma MarkOf(slash: bool, low: string)
    requires low != [] && low[0] != '/'
    requires !slash ==> low !in ["script", "style", "head", "title"]
    ensures var name := Slash(slash) + low;
            && !IsUnshown(name)
            && Mark(name) ==
               if low in ["br", "p", "div", "tr", "li", "blockquote", "table", "ul", "ol",
                          "h1", "h2", "h3", "h4", "h5", "h6"] then ['\n']
               else if slash && low in ["td", "th"] then [' ']
               else []
  {
    var name := Slash(slash) + low;
    if slash {
      assert name[0] == '/' && name[1..] == low;
      assert "/td"[1..] == "td" && "/th"[1..] == "th";
      assert low == "td" ==> name == "/td";
      assert low == "th" ==> name == "/th";
    } else {
      assert name == low;
    }
  }

  /**
   A script, style, head or title element doesn't come out, up to the end of the first tag that begins like its end
   tag, in any case.
   */
  lemma ElementIsUnshown(name: string, attrs: string, body: string, end: string, rest: string)
    requires Lower(name) in ["script", "style", "head", "title"] && IsRestOfTag(attrs) && '>' !in end
    requires Find(Lower(body + ['<', '/'] + end), ['<', '/'] + Lower(name)) == |body|
    ensures Strip(TagText(false, name, attrs) + (body + (['<', '/'] + end) + (['>'] + rest))) == Strip(rest)
  {
    hide *;
    UnshownIsTag(name);
    EndTagIs(body, end, Lower(name));
    TagComesOut(false, name, attrs, body + EndTag(end) + (['>'] + rest));
    UnshownIsSkipped(body, end, rest, Lower(name));
  }

  lemma EndTagIs(body: string, end: string, low: string)
    ensures EndTag(end) == ['<', '/'] + end && EndTag(low) == ['<', '/'] + low
    ensures body + ['<', '/'] + end == body + EndTag(end) && Slash(false) + low == low
  {
    hide Lower, Find;
  }

  lemma UnshownIsTag(name: string)
    requires Lower(name) in ["script", "style", "head", "title"]
    ensures IsTagName(name) && |name| <= 18 && IsUnshown(Lower(name))
  {
    assert forall i :: 0 <= i < |name| ==> Lower(name)[i] == LowerOf(name[i]) && IsLetter(Lower(name)[i]);
  }

  /** A `>` that closes no tag is left out, and nothing else. */
  lemma {:induction false} GtLeftOut(a: string, b: string)
    ensures WithoutGt(a + b) == WithoutGt(a) + WithoutGt(b)
    ensures forall c :: WithoutGt([c]) == if c == '>' then [] else [c]
  {
    assert forall c: char :: [c][1..] == [];
    if a == [] {
      assert a + b == b;
    } else {
      assert (a + b)[1..] == a[1..] + b;
      GtLeftOut(a[1..], b);
    }
  }

  // --- Entities ---------------------------------------------------------------------------------------

  /** An entity as it is written. */
  function EntityText(name: string): string {
    ['&'] + name + [';']
  }

  lemma EntityDecodes(name: string, rest: string)
    requires IsEntityName(name)
    ensures Decode(EntityText(name) + rest)
         == (match Entity(name) case Some(c) => [c] case None => EntityText(name)) + Decode(rest)
  {
    hide Entity, EntityLength;
    var s := EntityText(name) + rest;
    EntityOf(name, rest);
    assert s[1..] == name + [';'] + rest;
    assert s[1..|name| + 1] == name && s[|name| + 2..] == rest && s[..|name| + 2] == EntityText(name);
  }

  /** What a named entity stands for, in any case; any other name of two to six letters stays as it is written. */
  lemma NameStandsFor(name: string, rest: string)
    requires 2 <= |name| <= 6 && AllLetters(name)
    ensures Decode(EntityText(name) + rest) ==
            (if Lower(name) == "amp" then ['&']
             else if Lower(name) == "lt" then ['<']
             else if Lower(name) == "gt" then ['>']
             else if Lower(name) == "quot" then ['"']
             else if Lower(name) == "apos" then ['\'']
             else if Lower(name) == "nbsp" then [' ']
             else EntityText(name)) + Decode(rest)
  {
    EntityDecodes(name, rest);
    hide Decode, Lower, EntityText;
    assert IsLetter(LowerOf(name[0]));
  }

  /** A number in digits, of base ten or sixteen. */
  function NumberText(n: nat, hex: bool, upper: bool): string {
    var base := if hex then 16 else 10;
    if n < base then [DigitText(n, upper)] else NumberText(n / base, hex, upper) + [DigitText(n % base, upper)]
  }

  function DigitText(d: nat, upper: bool): char
    requires d < 16
  {
    (if upper then "0123456789ABCDEF" else "0123456789abcdef")[d]
  }

  lemma DigitCounts(d: nat, upper: bool, hex: bool)
    requires d < Base(hex)
    ensures (if hex then HexValue(DigitText(d, upper)) else DecValue(DigitText(d, upper))) == Some(d)
  {
  }

  function Base(hex: bool): nat {
    if hex then 16 else 10
  }

  lemma NumberUnfold(n: nat, hex: bool, upper: bool)
    ensures n % Base(hex) < 16 && n / Base(hex) * Base(hex) + n % Base(hex) == n
    ensures if n < Base(hex) then n % Base(hex) == n else n / Base(hex) < n
    ensures NumberText(n, hex, upper)
         == (if n < Base(hex) then [] else NumberText(n / Base(hex), hex, upper)) + [DigitText(n % Base(hex), upper)]
  {
    hide DigitText;
  }

  lemma {:induction false} NumberComesBack(n: nat, hex: bool, upper: bool)
    ensures var s := NumberText(n, hex, upper); s != [] && AllDigits(s, hex) && Number(s, hex) == n
    decreases n
  {
    NumberUnfold(n, hex, upper);
    DigitCounts(n % Base(hex), upper, hex);
    var d := DigitText(n % Base(hex), upper);
    hide HexValue, DecValue, DigitText, Number, AllDigits, NumberText, Base;
    if n < Base(hex) {
      OneMoreDigit([], d, hex, n % Base(hex));
      assert Number([], hex) * Base(hex) == 0;
    } else {
      NumberComesBack(n / Base(hex), hex, upper);
      OneMoreDigit(NumberText(n / Base(hex), hex, upper), d, hex, n % Base(hex));
    }
  }

  lemma OneMoreDigit(front: string, c: char, hex: bool, d: nat)
    requires (if hex then HexValue(c) else DecValue(c)) == Some(d)
    ensures AllDigits(front, hex) ==> AllDigits(front + [c], hex)
    ensures Number(front + [c], hex) == Number(front, hex) * Base(hex) + d
    ensures Number([], hex) == 0 && AllDigits([], hex)
  {
    hide HexValue, DecValue;
    assert (front + [c])[..|front|] == front;
  }

  function Pow(base: nat, k: nat): nat {
    if k == 0 then 1 else base * Pow(base, k - 1)
  }

  lemma {:induction false} NumberLength(n: nat, hex: bool, upper: bool, k: nat)
    requires k > 0 && n < Pow(if hex then 16 else 10, k)
    ensures |NumberText(n, hex, upper)| <= k
  {
    var base := if hex then 16 else 10;
    if n >= base {
      assert Pow(base, 1) == base * Pow(base, 0) == base;
      NumberLength(n / base, hex, upper, k - 1);
    }
  }

  /** What a number may be a character's: all but 0 and the surrogates. */
  predicate IsCharNumber(n: nat) {
    0 < n < 0xD800 || 0xDFFF < n <= 0x10FFFF
  }

  /** The name of the entity for a number: decimal, or hexadecimal after an `x` of either case. */
  function NumberName(n: nat, hex: bool, upper: bool): string {
    NumberStart(hex, upper) + NumberText(n, hex, upper)
  }

  function NumberStart(hex: bool, upper: bool): string {
    if hex then ['#', if upper then 'X' else 'x'] else ['#']
  }

  lemma NumberNamed(n: nat, hex: bool, upper: bool)
    requires n <= if hex then 0xFF_FFFF else 9_999_999
    ensures IsEntityName(NumberName(n, hex, upper))
    ensures Entity(NumberName(n, hex, upper)) == if IsCharNumber(n) then Some(n as char) else None
  {
    hide *;
    Powers();
    NumberLength(n, hex, upper, if hex then 6 else 7);
    NumberComesBack(n, hex, upper);
    NumberIsNamed(n, NumberText(n, hex, upper), hex, upper);
    NameIs(n, hex, upper);
  }

  lemma NameIs(n: nat, hex: bool, upper: bool)
    ensures NumberName(n, hex, upper) == NumberStart(hex, upper) + NumberText(n, hex, upper)
  {
  }

  lemma Powers()
    ensures Pow(16, 6) == 0x100_0000 && Pow(10, 7) == 10_000_000
  {
    assert Pow(16, 1) == 16 * Pow(16, 0) && Pow(16, 3) == 4096 && Pow(16, 6) == 4096 * Pow(16, 3);
    assert Pow(10, 1) == 10 * Pow(10, 0) && Pow(10, 3) == 1000 && Pow(10, 7) == 10_000 * Pow(10, 3);
  }

  lemma NumberIsNamed(n: nat, digits: string, hex: bool, upper: bool)
    requires digits != [] && AllDigits(digits, hex) && Number(digits, hex) == n && |digits| <= if hex then 6 else 7
    ensures var name := NumberStart(hex, upper) + digits;
            IsEntityName(name) && Entity(name) == if IsCharNumber(n) then Some(n as char) else None
  {
    var name := NumberStart(hex, upper) + digits;
    if hex {
      assert name[2..] == digits;
    } else {
      assert name[1..] == digits && name[1] == digits[0] && DecValue(digits[0]).Some?;
    }
    hide Number, AllDigits, HexValue;
  }

  /**
   What a number stands for, written in digits of either base and case: the character of that number, if there is
   one; else it stays as it is written.
   */
  lemma NumberStandsFor(n: nat, hex: bool, upper: bool, rest: string)
    requires n <= if hex then 0xFFFFFF else 9_999_999
    ensures Decode(EntityText(NumberName(n, hex, upper)) + rest)
         == (if IsCharNumber(n) then [n as char] else EntityText(NumberName(n, hex, upper))) + Decode(rest)
  {
    NumberNamed(n, hex, upper);
    EntityDecodes(NumberName(n, hex, upper), rest);
    hide Decode, EntityText, NumberName, Entity;
  }

  /** What holds no entity decodes to itself. */
  lemma {:induction false} PlainStays(s: string, rest: string)
    requires '&' !in s
    ensures Decode(s + rest) == s + Decode(rest)
  {
    hide EntityLength, Entity;
    if s == [] {
      assert s + rest == rest;
    } else {
      assert (s + rest)[1..] == s[1..] + rest && (s + rest)[0] == s[0];
      PlainStays(s[1..], rest);
    }
  }
}
