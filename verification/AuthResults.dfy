/**
 What a mail server's Authentication-Results header says of a message's sender
 (apps/server/src/mail-in.ts, `authResults` and `senderAuthenticated`): its value cut into parts at
 semicolons, without what a sender could have put into a comment or a quoted string.
 */
module AuthResults {
  import opened Common

  // --- The scan, as the loop that makes it ------------------------------------------------------

  datatype Scan = Scan(parts: seq<string>, part: string, depth: nat, quoted: bool)

  const START := Scan([], [], 0, false)

  /** What is left after a backslash: what it escapes is skipped. */
  function Past(s: string): string {
    if s == [] then [] else s[1..]
  }

  function Step(st: Scan, ch: char): Scan {
    if st.quoted then (if ch == '"' then st.(quoted := false) else st)
    else if st.depth > 0 then
      if ch == '(' then st.(depth := st.depth + 1) else if ch == ')' then st.(depth := st.depth - 1) else st
    else if ch == '"' then st.(quoted := true, part := st.part + ['"', '"'])
    else if ch == '(' then st.(depth := 1, part := st.part + [' '])
    else if ch == ';' then st.(parts := st.parts + [st.part], part := [])
    else st.(part := st.part + [ch])
  }

  /** A backslash in a comment or a quoted string hides the character after it. */
  predicate Escapes(st: Scan, ch: char) {
    ch == '\\' && (st.quoted || st.depth > 0)
  }

  /** The parts of `s` as they stand, read on from `st`; None when a quote or a comment never closes. */
  function Raw(s: string, st: Scan): Option<seq<string>>
    decreases |s|
  {
    if s == [] then (if st.quoted || st.depth > 0 then None else Some(st.parts + [st.part]))
    else if Escapes(st, s[0]) then Raw(Past(s[1..]), st)
    else Raw(s[1..], Step(st, s[0]))
  }

  method Cut(value: string) returns (parts: Option<seq<string>>)
    ensures parts == Raw(value, START)
  {
    var done: seq<string>, part: string := [], [];
    var depth: nat, quoted := 0, false;
    var i := 0;
    while i < |value|
      invariant 0 <= i
      invariant Raw(value[Min(i, |value|)..], Scan(done, part, depth, quoted)) == Raw(value, START)
    {
      ghost var st := Scan(done, part, depth, quoted);
      var ch := value[i];
      assert value[i..][1..] == value[i + 1..] && value[i..][0] == ch;
      assert Past(value[i + 1..]) == value[Min(i + 2, |value|)..];
      if quoted {
        if ch == '\\' {
          i := i + 1;
        } else if ch == '"' {
          quoted := false;
        }
      } else if depth > 0 {
        if ch == '\\' {
          i := i + 1;
        } else if ch == '(' {
          depth := depth + 1;
        } else if ch == ')' {
          depth := depth - 1;
        }
      } else if ch == '"' {
        quoted := true;
        part := part + ['"', '"'];
      } else if ch == '(' {
        depth := 1;
        part := part + [' '];
      } else if ch == ';' {
        done := done + [part];
        part := [];
      } else {
        part := part + [ch];
      }
      i := i + 1;
    }
    if quoted || depth > 0 {
      return None;
    }
    return Some(done + [part]);
  }

  // --- The grammar of a value ---------------------------------------------------------------------

  /** What is inside a comment (RFC 5322, section 3.2.2): text, escapes and comments. */
  datatype Comment =
    | End
    | Text(c: char, rest: Comment)
    | Escaped(c: char, rest: Comment)
    | Nest(inner: Comment, rest: Comment)

  /** What is inside a quoted string (RFC 5322, section 3.2.4). */
  datatype Quotable = Bare(c: char) | Slashed(c: char)

  datatype Token = Plain(c: char) | Quote(inside: seq<Quotable>) | Note(comment: Comment) | Semicolon

  predicate CommentFits(c: Comment) {
    match c
    case End => true
    case Text(ch, rest) => ch !in ['(', ')', '\\'] && CommentFits(rest)
    case Escaped(_, rest) => CommentFits(rest)
    case Nest(inner, rest) => CommentFits(inner) && CommentFits(rest)
  }

  predicate TokenFits(t: Token) {
    match t
    case Plain(c) => c !in ['"', '(', ';']
    case Quote(inside) => forall q :: q in inside && q.Bare? ==> q.c !in ['"', '\\']
    case Note(comment) => CommentFits(comment)
    case Semicolon => true
  }

  ghost predicate Fit(toks: seq<Token>) {
    forall t :: t in toks ==> TokenFits(t)
  }

  function CommentText(c: Comment): string {
    match c
    case End => []
    case Text(ch, rest) => [ch] + CommentText(rest)
    case Escaped(ch, rest) => ['\\', ch] + CommentText(rest)
    case Nest(inner, rest) => ['('] + CommentText(inner) + [')'] + CommentText(rest)
  }

  function QuoteText(inside: seq<Quotable>): string {
    if inside == [] then []
    else (if inside[0].Bare? then [inside[0].c] else ['\\', inside[0].c]) + QuoteText(inside[1..])
  }

  function TokenText(t: Token): string {
    match t
    case Plain(c) => [c]
    case Quote(inside) => ['"'] + QuoteText(inside) + ['"']
    case Note(comment) => ['('] + CommentText(comment) + [')']
    case Semicolon => [';']
  }

  function Render(toks: seq<Token>): string {
    if toks == [] then [] else TokenText(toks[0]) + Render(toks[1..])
  }

  /** What one token adds, whatever is inside it. */
  function Then(st: Scan, t: Token): Scan {
    match t
    case Plain(c) => st.(part := st.part + [c])
    case Quote(_) => st.(part := st.part + ['"', '"'])
    case Note(_) => st.(part := st.part + [' '])
    case Semicolon => st.(parts := st.parts + [st.part], part := [])
  }

  function Meaning(toks: seq<Token>, st: Scan): seq<string> {
    if toks == [] then st.parts + [st.part] else Meaning(toks[1..], Then(st, toks[0]))
  }

  // --- The scan undoes the printer ------------------------------------------------------------------

  lemma RawStep(ch: char, s: string, st: Scan)
    ensures Raw([ch] + s, st) == if Escapes(st, ch) then Raw(Past(s), st) else Raw(s, Step(st, ch))
  {
    assert ([ch] + s)[1..] == s;
  }

  lemma RawEnd(st: Scan)
    ensures Raw([], st) == if st.quoted || st.depth > 0 then None else Some(st.parts + [st.part])
  {
  }

  lemma RawEscape(ch: char, s: string, st: Scan)
    requires st.quoted || st.depth > 0
    ensures Raw(['\\', ch] + s, st) == Raw(s, st)
  {
    assert ['\\', ch] + s == ['\\'] + ([ch] + s);
    assert Past([ch] + s) == s;
    hide Raw;
    RawStep('\\', [ch] + s, st);
  }

  lemma {:induction false} CommentIsPassed(c: Comment, s: string, st: Scan)
    requires CommentFits(c) && !st.quoted && st.depth > 0
    ensures Raw(CommentText(c) + [')'] + s, st) == Raw(s, st.(depth := st.depth - 1))
    decreases c
  {
    hide Raw;
    var whole := CommentText(c) + [')'] + s;
    match c
    case End =>
      assert whole == [')'] + s;
      RawStep(')', s, st);
    case Text(ch, rest) =>
      assert whole == [ch] + (CommentText(rest) + [')'] + s);
      RawStep(ch, CommentText(rest) + [')'] + s, st);
      CommentIsPassed(rest, s, st);
    case Escaped(ch, rest) =>
      assert whole == ['\\', ch] + (CommentText(rest) + [')'] + s);
      RawEscape(ch, CommentText(rest) + [')'] + s, st);
      CommentIsPassed(rest, s, st);
    case Nest(inner, rest) =>
      var after := CommentText(rest) + [')'] + s;
      assert whole == ['('] + (CommentText(inner) + [')'] + after);
      RawStep('(', CommentText(inner) + [')'] + after, st);
      CommentIsPassed(inner, after, st.(depth := st.depth + 1));
      CommentIsPassed(rest, s, st);
  }

  lemma {:induction false} QuoteIsPassed(inside: seq<Quotable>, s: string, st: Scan)
    requires TokenFits(Quote(inside)) && st.quoted
    ensures Raw(QuoteText(inside) + ['"'] + s, st) == Raw(s, st.(quoted := false))
    decreases |inside|
  {
    hide Raw;
    var whole := QuoteText(inside) + ['"'] + s;
    if inside == [] {
      assert whole == ['"'] + s;
      RawStep('"', s, st);
    } else {
      var q := inside[0];
      var rest := QuoteText(inside[1..]) + ['"'] + s;
      assert q in inside;
      if q.Bare? {
        assert whole == [q.c] + rest;
        RawStep(q.c, rest, st);
      } else {
        assert whole == ['\\', q.c] + rest;
        RawEscape(q.c, rest, st);
      }
      QuoteIsPassed(inside[1..], s, st);
    }
  }

  lemma TokenIsPassed(t: Token, s: string, st: Scan)
    requires TokenFits(t) && !st.quoted && st.depth == 0
    ensures Raw(TokenText(t) + s, st) == Raw(s, Then(st, t))
  {
    hide Raw, QuoteText, CommentText;
    match t
    case Plain(c) =>
      RawStep(c, s, st);
    case Quote(inside) =>
      assert TokenText(t) + s == ['"'] + (QuoteText(inside) + ['"'] + s);
      RawStep('"', QuoteText(inside) + ['"'] + s, st);
      QuoteIsPassed(inside, s, st.(quoted := true, part := st.part + ['"', '"']));
    case Note(comment) =>
      assert TokenText(t) + s == ['('] + (CommentText(comment) + [')'] + s);
      RawStep('(', CommentText(comment) + [')'] + s, st);
      CommentIsPassed(comment, s, st.(depth := 1, part := st.part + [' ']));
    case Semicolon =>
      RawStep(';', s, st);
  }

  /** The scan gives back what was printed, and nothing of what is inside quotes and comments. */
  lemma {:induction false} UndoesPrinter(toks: seq<Token>, st: Scan)
    requires Fit(toks) && !st.quoted && st.depth == 0
    ensures Raw(Render(toks), st) == Some(Meaning(toks, st))
    decreases |toks|
  {
    if toks != [] {
      hide Raw, TokenText, TokenFits;
      assert toks[0] in toks && forall t :: t in toks[1..] ==> t in toks;
      TokenIsPassed(toks[0], Render(toks[1..]), st);
      UndoesPrinter(toks[1..], Then(st, toks[0]));
    }
  }

  // --- Every value that is read was printed -----------------------------------------------------------

  /** A comment, from after its opening parenthesis, and what follows its closing one. */
  function ParseComment(s: string): (r: Option<(Comment, string)>)
    ensures r.Some? ==> |r.value.1| < |s|
    decreases |s|
  {
    if s == [] then None
    else if s[0] == ')' then Some((End, s[1..]))
    else if s[0] == '\\' then
      if |s| == 1 then None
      else
        match ParseComment(s[2..]) case None => None case Some((c, rest)) => Some((Escaped(s[1], c), rest))
    else if s[0] == '(' then
      match ParseComment(s[1..])
      case None => None
      case Some((inner, more)) =>
        match ParseComment(more) case None => None case Some((c, rest)) => Some((Nest(inner, c), rest))
    else
      match ParseComment(s[1..]) case None => None case Some((c, rest)) => Some((Text(s[0], c), rest))
  }

  /** A quoted string, from after its opening quote, and what follows its closing one. */
  function ParseQuote(s: string): (r: Option<(seq<Quotable>, string)>)
    ensures r.Some? ==> |r.value.1| < |s|
    decreases |s|
  {
    if s == [] then None
    else if s[0] == '"' then Some(([], s[1..]))
    else if s[0] == '\\' then
      if |s| == 1 then None
      else
        match ParseQuote(s[2..]) case None => None case Some((q, rest)) => Some(([Slashed(s[1])] + q, rest))
    else
      match ParseQuote(s[1..]) case None => None case Some((q, rest)) => Some(([Bare(s[0])] + q, rest))
  }

  function Parse(s: string): Option<seq<Token>>
    decreases |s|
  {
    if s == [] then Some([])
    else if s[0] == '"' then
      match ParseQuote(s[1..])
      case None => None
      case Some((q, rest)) => (match Parse(rest) case None => None case Some(toks) => Some([Quote(q)] + toks))
    else if s[0] == '(' then
      match ParseComment(s[1..])
      case None => None
      case Some((c, rest)) => (match Parse(rest) case None => None case Some(toks) => Some([Note(c)] + toks))
    else
      match Parse(s[1..])
      case None => None
      case Some(toks) => Some([if s[0] == ';' then Semicolon else Plain(s[0])] + toks)
  }

  ghost predicate CommentRead(s: string, st: Scan) {
    match ParseComment(s)
    case None => Raw(s, st) == None
    case Some((c, rest)) => CommentFits(c) && s == CommentText(c) + [')'] + rest
  }

  lemma {:induction false} CommentParsed(s: string, st: Scan)
    requires !st.quoted && st.depth > 0
    ensures CommentRead(s, st)
    decreases |s|
  {
    RawEnd(st);
    hide Raw;
    if s != [] && s[0] != ')' {
      assert s == [s[0]] + s[1..];
      RawStep(s[0], s[1..], st);
      if s[0] == '\\' {
        if |s| > 1 {
          assert Past(s[1..]) == s[2..];
          CommentParsed(s[2..], st);
        }
      } else if s[0] == '(' {
        CommentParsed(s[1..], st.(depth := st.depth + 1));
        if ParseComment(s[1..]).Some? {
          CommentParsed(ParseComment(s[1..]).value.1, st);
        }
        NestRead(s, st);
      } else {
        CommentParsed(s[1..], st);
      }
    }
  }

  lemma NestRead(s: string, st: Scan)
    requires !st.quoted && st.depth > 0 && s != [] && s[0] == '('
    requires Raw(s, st) == Raw(s[1..], st.(depth := st.depth + 1))
    requires CommentRead(s[1..], st.(depth := st.depth + 1))
    requires ParseComment(s[1..]).Some? ==> CommentRead(ParseComment(s[1..]).value.1, st)
    ensures CommentRead(s, st)
  {
    if ParseComment(s[1..]).Some? {
      var (inner, more) := ParseComment(s[1..]).value;
      hide Raw;
      CommentIsPassed(inner, more, st.(depth := st.depth + 1));
      if ParseComment(more).Some? {
        var (c, rest) := ParseComment(more).value;
        NestText(inner, c, rest);
        assert s == ['('] + s[1..];
      }
    }
  }

  lemma NestText(inner: Comment, c: Comment, rest: string)
    ensures CommentText(Nest(inner, c)) + [')'] + rest
        == ['('] + (CommentText(inner) + [')'] + (CommentText(c) + [')'] + rest))
  {
  }

  lemma {:induction false} QuoteParsed(s: string, st: Scan)
    requires st.quoted
    ensures match ParseQuote(s)
            case None => Raw(s, st) == None
            case Some((q, rest)) => TokenFits(Quote(q)) && s == QuoteText(q) + ['"'] + rest
    decreases |s|
  {
    RawEnd(st);
    hide Raw;
    if s != [] && s[0] != '"' {
      assert s == [s[0]] + s[1..];
      RawStep(s[0], s[1..], st);
      if s[0] == '\\' {
        if |s| > 1 {
          assert Past(s[1..]) == s[2..];
          QuoteParsed(s[2..], st);
          if ParseQuote(s[2..]).Some? {
            var (q, rest) := ParseQuote(s[2..]).value;
            assert ([Slashed(s[1])] + q)[1..] == q;
          }
        }
      } else {
        QuoteParsed(s[1..], st);
        if ParseQuote(s[1..]).Some? {
          var (q, rest) := ParseQuote(s[1..]).value;
          assert ([Bare(s[0])] + q)[1..] == q;
        }
      }
    }
  }

  ghost predicate ParsedRight(s: string, st: Scan) {
    match Parse(s)
    case None => Raw(s, st) == None
    case Some(toks) => Fit(toks) && Render(toks) == s
  }

  lemma {:induction false} Parsed(s: string, st: Scan)
    requires !st.quoted && st.depth == 0
    ensures ParsedRight(s, st)
    decreases |s|, 0
  {
    if s != [] {
      hide Raw, ParsedRight, Fit;
      assert s == [s[0]] + s[1..];
      if s[0] == '"' {
        RawStep('"', s[1..], st);
        QuoteParsed(s[1..], st.(quoted := true, part := st.part + ['"', '"']));
        match ParseQuote(s[1..])
        case None =>
        case Some((q, rest)) =>
          assert s == TokenText(Quote(q)) + rest;
          OneParsed(Quote(q), rest, s, st);
      } else if s[0] == '(' {
        RawStep('(', s[1..], st);
        CommentParsed(s[1..], st.(depth := 1, part := st.part + [' ']));
        match ParseComment(s[1..])
        case None =>
        case Some((c, rest)) =>
          assert s == TokenText(Note(c)) + rest;
          OneParsed(Note(c), rest, s, st);
      } else {
        OneParsed(if s[0] == ';' then Semicolon else Plain(s[0]), s[1..], s, st);
      }
    }
  }

  /** A token read, and what follows it parsed. */
  lemma {:induction false} OneParsed(t: Token, rest: string, s: string, st: Scan)
    requires TokenFits(t) && s == TokenText(t) + rest && |rest| < |s| && !st.quoted && st.depth == 0
    requires Parse(s) == match Parse(rest) case None => None case Some(toks) => Some([t] + toks)
    ensures ParsedRight(s, st)
    decreases |rest|, 1
  {
    Parsed(rest, Then(st, t));
    TokenIsPassed(t, rest, st);
    if Parse(rest).Some? {
      assert ([t] + Parse(rest).value)[1..] == Parse(rest).value;
    }
  }

  /** A value is refused exactly when no sequence of tokens is printed as it: a quote or a comment never closes. */
  lemma RefusedExactly(value: string)
    ensures Raw(value, START) == None <==> forall toks :: Fit(toks) ==> Render(toks) != value
  {
    Parsed(value, START);
    forall toks | Fit(toks) && Render(toks) == value ensures Raw(value, START).Some? {
      UndoesPrinter(toks, START);
    }
  }

  predicate SameOutside(a: Token, b: Token) {
    (a.Quote? && b.Quote?) || (a.Note? && b.Note?) || a == b
  }

  /** Whatever a sender gets into quotes and comments, the parts are the same. */
  lemma {:induction false} InsidesDoNotCount(a: seq<Token>, b: seq<Token>, st: Scan)
    requires Fit(a) && Fit(b) && !st.quoted && st.depth == 0
    requires |a| == |b| && forall i :: 0 <= i < |a| ==> SameOutside(a[i], b[i])
    ensures Raw(Render(a), st) == Raw(Render(b), st)
  {
    UndoesPrinter(a, st);
    UndoesPrinter(b, st);
    SameMeaning(a, b, st);
  }

  lemma {:induction false} SameMeaning(a: seq<Token>, b: seq<Token>, st: Scan)
    requires |a| == |b| && forall i :: 0 <= i < |a| ==> SameOutside(a[i], b[i])
    ensures Meaning(a, st) == Meaning(b, st)
  {
    if a != [] {
      assert SameOutside(a[0], b[0]);
      forall i | 0 <= i < |a| - 1 ensures SameOutside(a[1..][i], b[1..][i]) {
        assert SameOutside(a[i + 1], b[i + 1]);
      }
      SameMeaning(a[1..], b[1..], Then(st, a[0]));
    }
  }
}
