/**
 Whether a mail server says a message is from the domain in its From line
 (apps/server/src/mail-in.ts, `authResults` and `senderAuthenticated`): which header decides, and
 that it decides by what stands outside its comments and quotes. Lower-casing is any function.
 */
module SenderCheck {
  import opened Common
  import opened AuthResults

  // --- A part, tidied -----------------------------------------------------------------------------

  /** Each run of blanks as one space. */
  function Collapse(s: string): string {
    if s == [] then []
    else if IsBlank(s[0]) then
      if |s| > 1 && IsBlank(s[1]) then Collapse(s[1..]) else [' '] + Collapse(s[1..])
    else [s[0]] + Collapse(s[1..])
  }

  function Tidied(parts: seq<string>, lower: string -> string): seq<string> {
    seq(|parts|, i requires 0 <= i < |parts| => lower(Trim(Collapse(parts[i]))))
  }

  /** `authResults`. */
  function Results(value: string, lower: string -> string): Option<seq<string>> {
    match Raw(value, START) case None => None case Some(parts) => Some(Tidied(parts, lower))
  }

  // --- Which header decides, and what it says -----------------------------------------------------

  datatype Header = Header(key: string, value: string)

  function FirstWord(s: string): string {
    if s == [] || s[0] == ' ' then [] else [s[0]] + FirstWord(s[1..])
  }

  function Word(s: string): (w: string)
    ensures w <= s
  {
    if s == [] || IsBlank(s[0]) then [] else [s[0]] + Word(s[1..])
  }

  /** `key ?=` at the start of `s`, and what follows. */
  function AfterSign(s: string, key: string): (r: Option<string>)
    ensures r.Some? ==> |r.value| < |s|
  {
    if !(key <= s) then None
    else
      var rest := s[|key|..];
      if |rest| > 0 && rest[0] == '=' then Some(rest[1..])
      else if |rest| > 1 && rest[0] == ' ' && rest[1] == '=' then Some(rest[2..])
      else None
  }

  function PastSpace(s: string): string {
    if s != [] && s[0] == ' ' then s[1..] else s
  }

  /** `key ?= ?(\S+)` at the start of `s`: the word, and what follows. */
  function MatchAt(s: string, key: string): (r: Option<(string, string)>)
    ensures r.Some? ==> |r.value.1| < |s|
  {
    match AfterSign(s, key)
    case None => None
    case Some(rest) =>
      var word := Word(PastSpace(rest));
      if word == [] then None else Some((word, PastSpace(rest)[|word|..]))
  }

  /** Every match of `key ?= ?(\S+)` in `s`, one after the other: the words. */
  function NamedAll(s: string, key: string): seq<string>
    decreases |s|
  {
    if s == [] then []
    else
      match MatchAt(s, key)
      case Some((word, rest)) => [word] + NamedAll(rest, key)
      case None => NamedAll(s[1..], key)
  }

  const DMARC: string := "dmarc"
  const PASS: string := "pass"
  const HEADER_FROM: string := " header.from"

  predicate IsDmarc(s: string) {
    AfterSign(s, DMARC).Some?
  }

  predicate Passes(s: string) {
    match AfterSign(s, DMARC)
    case None => false
    case Some(rest) =>
      var said := PastSpace(rest);
      PASS <= said && (|said| == |PASS| || said[|PASS|] == ' ')
  }

  function OnlyDmarc(parts: seq<string>): seq<string> {
    if parts == [] then [] else (if IsDmarc(parts[0]) then [parts[0]] else []) + OnlyDmarc(parts[1..])
  }

  function DomainOf(from: string): string {
    if from == [] then [] else if from[|from| - 1] == '@' then [] else DomainOf(from[..|from| - 1]) + [from[|from| - 1]]
  }

  /** What the deciding header says. */
  predicate Vouches(parts: seq<string>, from: string) {
    var dmarc := OnlyDmarc(if parts == [] then [] else parts[1..]);
    && |dmarc| == 1 && Passes(dmarc[0])
    && NamedAll(dmarc[0], HEADER_FROM) == [DomainOf(from)]
  }

  const HEADER_KEY: string := "authentication-results"

  /** The header can't be read, or is signed by one of the mailbox's own servers. */
  predicate Decides(h: Header, wanted: seq<string>, lower: string -> string) {
    && lower(h.key) == HEADER_KEY
    && match Results(h.value, lower)
       case None => true
       case Some(parts) => parts != [] && FirstWord(parts[0]) in wanted
  }

  predicate Verdict(h: Header, from: string, lower: string -> string) {
    match Results(h.value, lower) case None => false case Some(parts) => Vouches(parts, from)
  }

  predicate Authenticated(headers: seq<Header>, wanted: seq<string>, from: string, lower: string -> string) {
    headers != []
    && if Decides(headers[0], wanted, lower) then Verdict(headers[0], from, lower)
       else Authenticated(headers[1..], wanted, from, lower)
  }

  method SenderAuthenticated(headers: seq<Header>, authserv: seq<string>, from: string, lower: string -> string)
    returns (yes: bool)
    ensures var wanted := seq(|authserv|, i requires 0 <= i < |authserv| => lower(authserv[i]));
            yes == Authenticated(headers, wanted, from, lower)
  {
    var wanted := seq(|authserv|, i requires 0 <= i < |authserv| => lower(authserv[i]));
    for k := 0 to |headers|
      invariant Authenticated(headers[k..], wanted, from, lower) == Authenticated(headers, wanted, from, lower)
    {
      var h := headers[k];
      assert headers[k..][1..] == headers[k + 1..];
      if lower(h.key) != HEADER_KEY {
        continue;
      }
      var raw := Cut(h.value);
      if raw == None {
        return false;
      }
      var parts := Tidied(raw.value, lower);
      if parts == [] || FirstWord(parts[0]) !in wanted {
        continue;
      }
      var dmarc := OnlyDmarc(parts[1..]);
      if |dmarc| != 1 || !Passes(dmarc[0]) {
        return false;
      }
      var named := NamedAll(dmarc[0], HEADER_FROM);
      return |named| == 1 && named[0] == DomainOf(from);
    }
    return false;
  }

  // --- The first that decides, decides ---------------------------------------------------------------

  /** Headers below the one that decides change nothing; those above it that don't decide, neither. */
  lemma {:induction false} FirstDecides(above: seq<Header>, h: Header, below: seq<Header>, wanted: seq<string>,
                                        from: string,
                                        lower: string -> string)
    requires Decides(h, wanted, lower) && forall a :: a in above ==> !Decides(a, wanted, lower)
    ensures Authenticated(above + [h] + below, wanted, from, lower) <==> Verdict(h, from, lower)
    decreases |above|
  {
    hide Decides, Verdict;
    var all := above + [h] + below;
    if above != [] {
      assert all[0] == above[0] && all[1..] == above[1..] + [h] + below;
      FirstDecides(above[1..], h, below, wanted, from, lower);
    }
  }

  /** A message passes exactly when some header decides, none above it does, and it vouches for the sender. */
  lemma {:induction false} PassesExactly(headers: seq<Header>, wanted: seq<string>, from: string,
         lower: string -> string)
    ensures Authenticated(headers, wanted, from, lower) <==>
            exists k :: FirstAt(headers, k, wanted, lower) && Verdict(headers[k], from, lower)
  {
    hide Decides, Verdict;
    if k :| FirstAt(headers, k, wanted, lower) && Verdict(headers[k], from, lower) {
      assert headers == headers[..k] + [headers[k]] + headers[k + 1..];
      FirstDecides(headers[..k], headers[k], headers[k + 1..], wanted, from, lower);
    }
    if Authenticated(headers, wanted, from, lower) {
      var k := WhichDecides(headers, wanted, from, lower);
    }
  }

  ghost predicate FirstAt(headers: seq<Header>, k: int, wanted: seq<string>, lower: string -> string) {
    0 <= k < |headers| && Decides(headers[k], wanted, lower)
    && forall i :: 0 <= i < k ==> !Decides(headers[i], wanted, lower)
  }

  lemma {:induction false} WhichDecides(headers: seq<Header>, wanted: seq<string>, from: string,
                                        lower: string -> string)
    returns (k: nat)
    requires Authenticated(headers, wanted, from, lower)
    ensures FirstAt(headers, k, wanted, lower) && Verdict(headers[k], from, lower)
    decreases |headers|
  {
    hide Decides, Verdict;
    if Decides(headers[0], wanted, lower) {
      k := 0;
    } else {
      var rest := headers[1..];
      var j := WhichDecides(rest, wanted, from, lower);
      k := j + 1;
      forall i | 0 <= i < k ensures !Decides(headers[i], wanted, lower) {
        if i > 0 {
          assert rest[i - 1] == headers[i];
        }
      }
    }
  }

  // --- Printed with comments, escapes and blanks at will, the parts come back --------------------------

  /** Blanks and comments, of which one at least stands between two words. */
  ghost predicate IsGap(toks: seq<Token>) {
    forall t :: t in toks ==> TokenFits(t) && ((t.Plain? && IsBlank(t.c)) || t.Note?)
  }

  ghost predicate IsWord(toks: seq<Token>) {
    toks != [] && forall t :: t in toks ==> TokenFits(t) && ((t.Plain? && !IsBlank(t.c)) || t.Quote?)
  }

  datatype Piece = Piece(word: seq<Token>, gap: seq<Token>)

  ghost predicate PiecesFit(pieces: seq<Piece>) {
    forall i :: 0 <= i < |pieces| ==> PieceFits(pieces[i], i == |pieces| - 1)
  }

  ghost predicate PieceFits(p: Piece, last: bool) {
    IsWord(p.word) && IsGap(p.gap) && (last || p.gap != [])
  }

  datatype Part = Part(lead: seq<Token>, pieces: seq<Piece>)

  ghost predicate PartFits(p: Part) {
    IsGap(p.lead) && PiecesFit(p.pieces)
  }

  function PieceTokens(pieces: seq<Piece>): seq<Token> {
    if pieces == [] then [] else pieces[0].word + pieces[0].gap + PieceTokens(pieces[1..])
  }

  function PartTokens(p: Part): seq<Token> {
    p.lead + PieceTokens(p.pieces)
  }

  function Tokens(parts: seq<Part>): seq<Token>
    requires parts != []
  {
    if |parts| == 1 then PartTokens(parts[0]) else PartTokens(parts[0]) + [Semicolon] + Tokens(parts[1..])
  }

  /** What tokens without a semicolon leave. */
  function Leaves(toks: seq<Token>): string {
    if toks == [] then []
    else
      (match toks[0] case Plain(c) => [c] case Quote(_) => ['"', '"'] case Note(_) => [' '] case Semicolon => [])
      + Leaves(toks[1..])
  }

  /** The words, one space between two. */
  function Canonical(pieces: seq<Piece>): string {
    if pieces == [] then []
    else if |pieces| == 1 then Leaves(pieces[0].word)
    else Leaves(pieces[0].word) + [' '] + Canonical(pieces[1..])
  }

  lemma {:induction false} LeavesCat(a: seq<Token>, b: seq<Token>)
    ensures Leaves(a + b) == Leaves(a) + Leaves(b)
  {
    if a == [] {
      assert a + b == b;
    } else {
      assert (a + b)[1..] == a[1..] + b;
      LeavesCat(a[1..], b);
    }
  }

  ghost predicate AllBlank(s: string) {
    forall i :: 0 <= i < |s| ==> IsBlank(s[i])
  }

  ghost predicate NoBlank(s: string) {
    forall i :: 0 <= i < |s| ==> !IsBlank(s[i])
  }

  lemma {:induction false} GapLeaves(toks: seq<Token>)
    requires IsGap(toks)
    ensures AllBlank(Leaves(toks)) && (toks != [] ==> Leaves(toks) != [])
  {
    hide TokenFits;
    if toks != [] {
      assert toks[0] in toks && forall t :: t in toks[1..] ==> t in toks;
      GapLeaves(toks[1..]);
    }
  }

  lemma {:induction false} WordLeaves(toks: seq<Token>)
    requires toks == [] || IsWord(toks)
    ensures NoBlank(Leaves(toks)) && (toks != [] ==> Leaves(toks) != [])
  {
    assert !IsBlank('"');
    hide TokenFits, IsBlank;
    if toks != [] {
      assert toks[0] in toks && forall t :: t in toks[1..] ==> t in toks;
      WordLeaves(toks[1..]);
    }
  }

  lemma {:induction false} CollapseGap(gap: string, rest: string)
    requires AllBlank(gap) && gap != [] && (rest == [] || !IsBlank(rest[0]))
    ensures Collapse(gap + rest) == [' '] + Collapse(rest)
  {
    hide IsBlank;
    assert (gap + rest)[1..] == gap[1..] + rest;
    if |gap| == 1 {
      assert gap[1..] + rest == rest;
    } else {
      assert (gap + rest)[1] == gap[1];
      CollapseGap(gap[1..], rest);
    }
  }

  lemma {:induction false} CollapseWord(word: string, rest: string)
    requires NoBlank(word)
    ensures Collapse(word + rest) == word + Collapse(rest)
  {
    hide IsBlank;
    if word == [] {
      assert word + rest == rest;
    } else {
      assert (word + rest)[1..] == word[1..] + rest;
      CollapseWord(word[1..], rest);
    }
  }

  function Gap(toks: seq<Token>): string {
    if toks == [] then [] else [' ']
  }

  /** One word and the gap after it, before text that starts with no blank. */
  lemma CollapsePiece(p: Piece, last: bool, rest: string)
    requires PieceFits(p, last) && (if last then rest == [] else rest != [] && !IsBlank(rest[0]))
    ensures Collapse(Leaves(p.word) + (Leaves(p.gap) + rest)) == Leaves(p.word) + (Gap(p.gap) + Collapse(rest))
    ensures Leaves(p.word) != [] && !IsBlank(Leaves(p.word)[0])
  {
    WordLeaves(p.word);
    GapLeaves(p.gap);
    NotEmpty(p.word);
    LeavesNothing();
    hide IsBlank, IsWord, IsGap, Collapse, Leaves;
    CollapseWord(Leaves(p.word), Leaves(p.gap) + rest);
    if p.gap != [] {
      CollapseGap(Leaves(p.gap), rest);
    } else {
      assert [] + rest == rest && [] + Collapse(rest) == Collapse(rest);
    }
  }

  lemma LeavesOfPieces(pieces: seq<Piece>)
    requires pieces != []
    ensures var p := pieces[0];
            Leaves(PieceTokens(pieces)) == Leaves(p.word) + (Leaves(p.gap) + Leaves(PieceTokens(pieces[1..])))
  {
    hide Leaves;
    var p := pieces[0];
    LeavesCat(p.word, p.gap);
    LeavesCat(p.word + p.gap, PieceTokens(pieces[1..]));
  }

  lemma CanonicalOf(pieces: seq<Piece>, last: string)
    requires |pieces| > 1
    ensures Canonical(pieces) + last == Leaves(pieces[0].word) + ([' '] + (Canonical(pieces[1..]) + last))
  {
    hide Leaves;
  }

  lemma FirstOf(a: string, b: string)
    requires a != []
    ensures a + b != [] && (a + b)[0] == a[0]
  {
  }

  lemma {:induction false} CollapsePieces(pieces: seq<Piece>)
    requires PiecesFit(pieces) && pieces != []
    ensures Collapse(Leaves(PieceTokens(pieces))) == Canonical(pieces) + Gap(pieces[|pieces| - 1].gap)
    ensures Leaves(PieceTokens(pieces)) != [] && !IsBlank(Leaves(PieceTokens(pieces))[0])
    decreases |pieces|
  {
    var p := pieces[0];
    var rest := Leaves(PieceTokens(pieces[1..]));
    assert PieceFits(p, |pieces| == 1);
    LeavesNothing();
    LeavesOfPieces(pieces);
    if |pieces| == 1 {
      assert rest == [];
      CollapsePiece(p, true, []);
      assert Gap(p.gap) + [] == Gap(p.gap);
      hide IsBlank, PieceFits, Collapse, Leaves, Gap, PieceTokens;
      FirstOf(Leaves(p.word), Leaves(p.gap) + rest);
    } else {
      hide IsBlank, PieceFits, Collapse, Leaves, Gap, PieceTokens, Canonical;
      RestFits(pieces);
      CollapsePieces(pieces[1..]);
      CollapsePiece(p, false, rest);
      GapBetween(pieces);
      CanonicalOf(pieces, Gap(pieces[|pieces| - 1].gap));
      FirstOf(Leaves(p.word), Leaves(p.gap) + rest);
      assert pieces[1..][|pieces| - 2] == pieces[|pieces| - 1];
    }
  }

  lemma GapBetween(pieces: seq<Piece>)
    requires PiecesFit(pieces) && |pieces| > 1
    ensures Gap(pieces[0].gap) == [' ']
  {
    assert PieceFits(pieces[0], false);
  }

  lemma NotEmpty(word: seq<Token>)
    requires IsWord(word)
    ensures word != []
  {
  }

  lemma LeavesNothing()
    ensures Leaves([]) == [] && Collapse([]) == []
  {
  }

  lemma RestFits(pieces: seq<Piece>)
    requires PiecesFit(pieces) && pieces != []
    ensures PiecesFit(pieces[1..])
  {
    hide PieceFits;
    var rest := pieces[1..];
    forall i | 0 <= i < |rest| ensures PieceFits(rest[i], i == |rest| - 1) {
      assert PieceFits(pieces[i + 1], i + 1 == |pieces| - 1);
    }
  }

  /** Canonical text neither starts nor ends with a blank. */
  lemma {:induction false} CanonicalEnds(pieces: seq<Piece>)
    requires PiecesFit(pieces) && pieces != []
    ensures var s := Canonical(pieces); s != [] && !IsBlank(s[0]) && !IsBlank(s[|s| - 1])
    decreases |pieces|
  {
    hide IsBlank, IsWord, IsGap, Leaves;
    assert PieceFits(pieces[0], |pieces| == 1);
    NotEmpty(pieces[0].word);
    WordLeaves(pieces[0].word);
    if |pieces| > 1 {
      RestFits(pieces);
      CanonicalEnds(pieces[1..]);
    }
  }

  lemma TrimBoth(lead: string, s: string, tail: string)
    requires lead in [[], [' ']] && tail in [[], [' ']]
    requires s != [] && !IsBlank(s[0]) && !IsBlank(s[|s| - 1])
    ensures Trim(lead + s + tail) == s
  {
    assert IsBlank(' ');
    hide IsBlank;
    var whole := lead + s + tail;
    assert TrimStart(s + tail) == s + tail;
    assert TrimStart(whole) == s + tail by {
      if lead == [] {
        assert whole == s + tail;
      } else {
        assert whole[1..] == s + tail;
      }
    }
    assert TrimEnd(s) == s;
    if tail == [] {
      assert s + tail == s;
    } else {
      assert (s + tail)[..|s + tail| - 1] == s;
    }
  }

  lemma TidiedPart(p: Part)
    requires PartFits(p)
    ensures Trim(Collapse(Leaves(PartTokens(p)))) == Canonical(p.pieces)
  {
    hide IsBlank, IsGap, IsWord, Leaves, Collapse, Trim;
    LeavesCat(p.lead, PieceTokens(p.pieces));
    GapLeaves(p.lead);
    LeavesNothing();
    var inner := Leaves(PieceTokens(p.pieces));
    var lead := Leaves(p.lead);
    assert p.lead == [] ==> lead == [];
    if p.pieces == [] {
      assert PieceTokens(p.pieces) == [];
      assert inner == [] && lead + inner == lead;
      if p.lead != [] {
        CollapseGap(lead, []);
        assert lead + [] == lead && [' '] + [] == [' '];
        assert Collapse(lead) == [' '];
      }
      TrimNothing();
    } else {
      CollapsePieces(p.pieces);
      CanonicalEnds(p.pieces);
      var tail := Gap(p.pieces[|p.pieces| - 1].gap);
      var words := Canonical(p.pieces);
      assert Leaves(PartTokens(p)) == lead + inner;
      if p.lead != [] {
        CollapseGap(lead, inner);
        assert [' '] + (words + tail) == [' '] + words + tail;
      } else {
        assert lead + inner == inner && words + tail == [] + words + tail;
      }
      TrimBoth(Gap(p.lead), words, tail);
    }
  }

  lemma TrimNothing()
    ensures Trim([]) == [] && Trim([' ']) == []
  {
    assert IsBlank(' ');
  }

  lemma {:induction false} MeaningOf(toks: seq<Token>, rest: seq<Token>, st: Scan)
    requires forall t :: t in toks ==> t != Semicolon
    ensures Meaning(toks + rest, st) == Meaning(rest, st.(part := st.part + Leaves(toks)))
    decreases |toks|
  {
    hide Leaves, Then;
    LeavesNothing();
    if toks == [] {
      assert toks + rest == rest && st.part + [] == st.part;
    } else {
      assert (toks + rest)[1..] == toks[1..] + rest;
      assert toks[0] in toks && forall t :: t in toks[1..] ==> t in toks;
      OneLeaves(toks[0], st);
      MeaningOf(toks[1..], rest, Then(st, toks[0]));
      LeavesCat([toks[0]], toks[1..]);
      assert [toks[0]] + toks[1..] == toks;
      assert st.part + Leaves([toks[0]]) + Leaves(toks[1..]) == st.part + Leaves(toks);
    }
  }

  lemma OneLeaves(t: Token, st: Scan)
    requires t != Semicolon
    ensures Then(st, t) == st.(part := st.part + Leaves([t]))
  {
    assert [t][1..] == [];
    assert Leaves([]) == [];
  }

  lemma {:induction false} PiecesHaveFitTokens(pieces: seq<Piece>)
    requires PiecesFit(pieces)
    ensures Fit(PieceTokens(pieces)) && forall t :: t in PieceTokens(pieces) ==> t != Semicolon
  {
    hide TokenFits, IsBlank;
    if pieces != [] {
      assert PieceFits(pieces[0], |pieces| == 1);
      RestFits(pieces);
      PiecesHaveFitTokens(pieces[1..]);
    }
  }

  lemma PartHasFitTokens(p: Part)
    requires PartFits(p)
    ensures Fit(PartTokens(p)) && forall t :: t in PartTokens(p) ==> t != Semicolon
  {
    hide TokenFits, IsBlank;
    PiecesHaveFitTokens(p.pieces);
  }

  ghost predicate AllFit(parts: seq<Part>) {
    forall p :: p in parts ==> PartFits(p)
  }

  lemma {:induction false} MeaningOfParts(parts: seq<Part>, st: Scan)
    requires parts != [] && AllFit(parts) && st.part == []
    ensures Fit(Tokens(parts))
    ensures Meaning(Tokens(parts), st)
        == st.parts + seq(|parts|, i requires 0 <= i < |parts| => Leaves(PartTokens(parts[i])))
    decreases |parts|
  {
    hide TokenFits, IsGap, PartFits, PartTokens, Leaves;
    var head := PartTokens(parts[0]);
    assert parts[0] in parts;
    PartHasFitTokens(parts[0]);
    var all := seq(|parts|, i requires 0 <= i < |parts| => Leaves(PartTokens(parts[i])));
    if |parts| == 1 {
      assert head + [] == head;
      MeaningOf(head, [], st);
      assert st.part + Leaves(head) == Leaves(head);
      assert all == [Leaves(head)];
    } else {
      assert forall p :: p in parts[1..] ==> p in parts;
      var rest := Tokens(parts[1..]);
      assert Tokens(parts) == head + ([Semicolon] + rest);
      MeaningOf(head, [Semicolon] + rest, st);
      var st' := st.(part := st.part + Leaves(head));
      assert ([Semicolon] + rest)[1..] == rest;
      MeaningOfParts(parts[1..], Then(st', Semicolon));
      assert TokenFits(Semicolon) by { SemicolonFits(); }
      var tail := seq(|parts[1..]|, i requires 0 <= i < |parts[1..]| => Leaves(PartTokens(parts[1..][i])));
      assert st.part + Leaves(head) == Leaves(head);
      assert all == [Leaves(head)] + tail;
      assert st.parts + [Leaves(head)] + tail == st.parts + all;
    }
  }

  lemma SemicolonFits()
    ensures TokenFits(Semicolon)
  {
  }

  function CanonicalParts(parts: seq<Part>, lower: string -> string): seq<string> {
    seq(|parts|, i requires 0 <= i < |parts| => lower(Canonical(parts[i].pieces)))
  }

  /**
   However a header is printed (comments and blanks between its words, anything in its comments and
   quotes), its parts come back: their words, one space between two, each quoted string as an empty one.
   */
  lemma {:induction false} PartsComeBack(parts: seq<Part>, lower: string -> string)
    requires parts != [] && AllFit(parts)
    ensures Results(Render(Tokens(parts)), lower) == Some(CanonicalParts(parts, lower))
  {
    hide Raw, Meaning, Render, Collapse, Trim, Leaves, Canonical, Tokens, PartTokens, PartFits;
    MeaningOfParts(parts, START);
    UndoesPrinter(Tokens(parts), START);
    var raw := seq(|parts|, i requires 0 <= i < |parts| => Leaves(PartTokens(parts[i])));
    assert START.parts + raw == raw;
    forall i | 0 <= i < |parts| ensures lower(Trim(Collapse(raw[i]))) == lower(Canonical(parts[i].pieces)) {
      assert parts[i] in parts;
      TidiedPart(parts[i]);
    }
    assert Tidied(raw, lower) == CanonicalParts(parts, lower);
  }

  /** So what decides and what it says is in the words outside comments and quotes alone. */
  lemma {:induction false} VerdictOfPrinted(key: string, parts: seq<Part>, wanted: seq<string>, from: string,
         lower: string -> string)
    requires parts != [] && AllFit(parts)
    ensures var h := Header(key, Render(Tokens(parts)));
            var said := CanonicalParts(parts, lower);
            && (Decides(h, wanted, lower) <==> lower(key) == HEADER_KEY && FirstWord(said[0]) in wanted)
            && (Verdict(h, from, lower) <==> Vouches(said, from))
  {
    PartsComeBack(parts, lower);
    hide Results, Vouches, FirstWord;
  }

  // --- Every header that is read is so printed --------------------------------------------------------

  /** One more token before a part's others: of the gap or word they start with, or of one of its own. */
  function Before(t: Token, p: Part): Part {
    if t.Note? || (t.Plain? && IsBlank(t.c)) then Part([t] + p.lead, p.pieces)
    else if p.lead == [] && p.pieces != [] then
      Part([], [Piece([t] + p.pieces[0].word, p.pieces[0].gap)] + p.pieces[1..])
    else Part([], [Piece([t], p.lead)] + p.pieces)
  }

  /** The parts that tokens are printed from. */
  function PartsOf(toks: seq<Token>): (parts: seq<Part>)
    ensures parts != []
  {
    if toks == [] then [Part([], [])]
    else
      var parts := PartsOf(toks[1..]);
      if toks[0] == Semicolon then [Part([], [])] + parts else [Before(toks[0], parts[0])] + parts[1..]
  }

  function PartsIn(value: string): Option<seq<Part>> {
    match Parse(value) case None => None case Some(toks) => Some(PartsOf(toks))
  }

  lemma SemicolonApart(parts: seq<Part>)
    requires parts != []
    ensures Tokens([Part([], [])] + parts) == [Semicolon] + Tokens(parts)
  {
    var all := [Part([], [])] + parts;
    assert all[1..] == parts;
    assert PartTokens(all[0]) == [];
  }

  lemma TokensOfFirst(p: Part, more: seq<Part>)
    ensures Tokens([p] + more) == PartTokens(p) + if more == [] then [] else [Semicolon] + Tokens(more)
  {
    assert ([p] + more)[1..] == more;
  }

  lemma PiecesOfFirst(p: Piece, more: seq<Piece>)
    ensures PieceTokens([p] + more) == p.word + p.gap + PieceTokens(more)
  {
    assert ([p] + more)[1..] == more;
  }

  lemma BeforeTokens(t: Token, p: Part)
    ensures PartTokens(Before(t, p)) == [t] + PartTokens(p)
  {
    hide IsBlank, PieceTokens;
    if p.pieces != [] {
      var first, more := p.pieces[0], p.pieces[1..];
      assert p.pieces == [first] + more;
      PiecesOfFirst(first, more);
      PiecesOfFirst(Piece([t] + first.word, first.gap), more);
    }
    PiecesOfFirst(Piece([t], p.lead), p.pieces);
  }

  lemma PiecesAfter(p: Piece, more: seq<Piece>)
    requires PiecesFit(more) && PieceFits(p, more == [])
    ensures PiecesFit([p] + more)
  {
    hide PieceFits;
    var all := [p] + more;
    forall i | 0 <= i < |all| ensures PieceFits(all[i], i == |all| - 1) {
      assert i > 0 ==> PieceFits(more[i - 1], i - 1 == |more| - 1);
    }
  }

  lemma BeforeFits(t: Token, p: Part)
    requires PartFits(p) && TokenFits(t) && t != Semicolon
    ensures PartFits(Before(t, p))
  {
    hide PiecesFit, TokenFits, IsBlank;
    if t.Note? || (t.Plain? && IsBlank(t.c)) {
    } else if p.lead == [] && p.pieces != [] {
      var first, more := p.pieces[0], p.pieces[1..];
      RestFits(p.pieces);
      FirstFits(p.pieces);
      assert IsWord([t] + first.word);
      PiecesAfter(Piece([t] + first.word, first.gap), more);
    } else {
      assert IsWord([t]);
      PiecesAfter(Piece([t], p.lead), p.pieces);
    }
  }

  lemma FirstFits(pieces: seq<Piece>)
    requires PiecesFit(pieces) && pieces != []
    ensures PieceFits(pieces[0], pieces[1..] == [])
  {
    hide PieceFits;
  }

  /** Any tokens that fit are those of parts that do. */
  lemma {:induction false} EveryTokensAreParts(toks: seq<Token>)
    requires Fit(toks)
    ensures AllFit(PartsOf(toks)) && Tokens(PartsOf(toks)) == toks
  {
    hide TokenFits, PartFits, Tokens, PartTokens, Before;
    if toks == [] {
      NoTokens();
    } else {
      var t := toks[0];
      var parts := PartsOf(toks[1..]);
      assert t in toks && forall u :: u in toks[1..] ==> u in toks;
      EveryTokensAreParts(toks[1..]);
      assert PartsOf(toks) == if t == Semicolon then [Part([], [])] + parts else [Before(t, parts[0])] + parts[1..];
      assert [t] + toks[1..] == toks;
      hide PartsOf;
      if t == Semicolon {
        NoTokens();
        SemicolonApart(parts);
      } else {
        var p, more := parts[0], parts[1..];
        assert parts == [p] + more;
        OneBefore(t, p, more);
      }
    }
  }

  lemma OneBefore(t: Token, p: Part, more: seq<Part>)
    requires AllFit([p] + more) && TokenFits(t) && t != Semicolon
    ensures AllFit([Before(t, p)] + more) && Tokens([Before(t, p)] + more) == [t] + Tokens([p] + more)
  {
    assert p in [p] + more && forall q :: q in more ==> q in [p] + more;
    hide TokenFits, PartFits, Tokens, PartTokens, Before;
    BeforeFits(t, p);
    BeforeTokens(t, p);
    TokensOfFirst(p, more);
    TokensOfFirst(Before(t, p), more);
  }

  lemma NoTokens()
    ensures PartFits(Part([], [])) && Tokens([Part([], [])]) == []
  {
  }

  /** So every value that is read at all is some parts printed, and gives their words; any other is refused. */
  lemma EveryValueIsParts(value: string, lower: string -> string)
    ensures match PartsIn(value)
            case None => Results(value, lower) == None
            case Some(parts) => AllFit(parts) && Render(Tokens(parts)) == value
                                && Results(value, lower) == Some(CanonicalParts(parts, lower))
  {
    Parsed(value, START);
    hide Raw, Tidied, CanonicalParts, Fit, AllFit, Tokens, PartsOf, Render, Parse;
    match Parse(value)
    case None =>
    case Some(toks) =>
      EveryTokensAreParts(toks);
      PartsComeBack(PartsOf(toks), lower);
  }

  /** And so, for any header at all, whether it decides and what it says. */
  lemma VerdictOfAny(h: Header, wanted: seq<string>, from: string, lower: string -> string)
    ensures Decides(h, wanted, lower) <==>
            && lower(h.key) == HEADER_KEY
            && (PartsIn(h.value).Some? ==> FirstWord(CanonicalParts(PartsIn(h.value).value, lower)[0]) in wanted)
    ensures Verdict(h, from, lower) <==>
            PartsIn(h.value).Some? && Vouches(CanonicalParts(PartsIn(h.value).value, lower), from)
  {
    EveryValueIsParts(h.value, lower);
    hide Results, Vouches, FirstWord, Parse;
  }

  // --- Which words name the sender's domain -------------------------------------------------------------

  function Join(words: seq<string>): string {
    if words == [] then [] else [' '] + words[0] + Join(words[1..])
  }

  /**
   A value named at the first of `words`, and the words after it: `name=v`, with a space before the sign,
   after it, or both.
   */
  function Taken(words: seq<string>, name: string): (r: Option<(string, seq<string>)>)
    ensures r.Some? ==> |r.value.1| < |words|
  {
    if words == [] then None
    else
      var w := words[0];
      if name + ['='] < w then Some((w[|name| + 1..], words[1..]))
      else if w == name + ['='] then (if |words| > 1 then Some((words[1], words[2..])) else None)
      else if w == name && |words| > 1 && ['='] < words[1] then Some((words[1][1..], words[2..]))
      else if w == name && |words| > 2 && words[1] == ['='] then Some((words[2], words[3..]))
      else None
  }

  /** All of them, in order. */
  function Values(words: seq<string>, name: string): seq<string>
    decreases |words|
  {
    if words == [] then []
    else
      match Taken(words, name)
      case Some((value, rest)) => [value] + Values(rest, name)
      case None => Values(words[1..], name)
  }

  ghost predicate IsPlain(w: string) {
    w != [] && NoBlank(w)
  }

  ghost predicate AllPlain(words: seq<string>) {
    forall w :: w in words ==> IsPlain(w)
  }

  lemma {:induction false} WordOf(w: string, rest: string)
    requires NoBlank(w) && (rest == [] || IsBlank(rest[0]))
    ensures Word(w + rest) == w
  {
    hide IsBlank;
    if w == [] {
      assert w + rest == rest;
    } else {
      assert (w + rest)[1..] == w[1..] + rest;
      WordOf(w[1..], rest);
    }
  }

  lemma {:induction false} NothingIn(w: string, rest: string, name: string)
    requires NoBlank(w)
    ensures NamedAll(w + rest, [' '] + name) == NamedAll(rest, [' '] + name)
  {
    assert IsBlank(' ');
    hide IsBlank;
    if w == [] {
      assert w + rest == rest;
    } else {
      assert (w + rest)[1..] == w[1..] + rest;
      assert !([' '] + name <= w + rest) by {
        assert ([' '] + name)[0] == ' ' && (w + rest)[0] == w[0];
      }
      NothingIn(w[1..], rest, name);
    }
  }

  lemma StartsWithin(w: string, rest: string, name: string)
    requires NoBlank(name) && (rest == [] || IsBlank(rest[0])) && [' '] + name <= [' '] + w + rest
    ensures name <= w
  {
    hide IsBlank;
    var text := w + rest;
    assert text == ([' '] + w + rest)[1..] && name == ([' '] + name)[1..];
    assert forall i :: 0 <= i < |name| ==> name[i] == text[i];
    assert rest != [] ==> IsBlank(text[|w|]);
    assert |name| <= |w|;
    assert forall i :: 0 <= i < |w| ==> text[i] == w[i];
  }

  lemma JoinStarts(words: seq<string>)
    ensures Join(words) == [] || (Join(words)[0] == ' ' && IsBlank(Join(words)[0]))
  {
    assert IsBlank(' ');
    hide IsBlank;
  }

  /** A word cut off: what follows its first letters, up to the blank after it. */
  lemma RestOfWord(w: string, words: seq<string>)
    requires IsPlain(w) && AllPlain(words)
    ensures Word(PastSpace(w + Join(words))) == w && PastSpace(w + Join(words))[|w|..] == Join(words)
  {
    assert IsBlank(' ');
    assert w[0] != ' ';
    JoinStarts(words);
    hide IsBlank, Join;
    assert PastSpace(w + Join(words)) == w + Join(words);
    WordOf(w, Join(words));
  }

  /** The word after a space: the first of `words`, whole. */
  lemma NextWord(words: seq<string>)
    requires words != [] && AllPlain(words)
    ensures Word(PastSpace(Join(words))) == words[0] && PastSpace(Join(words))[|words[0]|..] == Join(words[1..])
  {
    var w, rest := words[0], Join(words[1..]);
    assert w in words && AllPlain(words[1..]);
    assert IsPlain(w);
    assert Join(words) == [' '] + (w + rest);
    hide Join;
    assert PastSpace(Join(words)) == w + rest;
    assert IsBlank(' ');
    hide IsBlank;
    assert PastSpace(w + rest) == w + rest;
    RestOfWord(w, words[1..]);
  }

  lemma NoWord()
    ensures Join([]) == [] && Word(PastSpace([])) == []
  {
  }

  ghost predicate MatchIs(s: string, key: string, r: Option<(string, seq<string>)>) {
    MatchAt(s, key) == match r case None => None case Some((value, rest)) => Some((value, Join(rest)))
  }

  /** What follows the key decides. */
  lemma AfterKey(key: string, t: string)
    ensures AfterSign(key + t, key)
         == if t != [] && t[0] == '=' then Some(t[1..])
            else if |t| > 1 && t[0] == ' ' && t[1] == '=' then Some(t[2..])
            else None
  {
    assert (key + t)[|key|..] == t;
  }

  /** After the sign: the value is the next word, or what is left of this one. */
  lemma AfterTheSign(s: string, key: string, value: string, words: seq<string>)
    requires AfterSign(s, key) == Some(value + Join(words)) && AllPlain(words) && (value != [] ==> IsPlain(value))
    ensures MatchIs(s, key, if value != [] then Some((value, words))
                            else if words != [] then Some((words[0], words[1..])) else None)
  {
    hide AfterSign, Word, PastSpace, Join, IsPlain;
    if value != [] {
      RestOfWord(value, words);
      PlainIsSome(value);
    } else {
      assert value + Join(words) == Join(words);
      if words == [] {
        NoWord();
      } else {
        NextWord(words);
        assert words[0] in words;
        PlainIsSome(words[0]);
      }
    }
  }

  lemma PlainIsSome(w: string)
    requires IsPlain(w)
    ensures w != []
  {
  }

  /** The name is not there, or something else than a sign follows it. */
  lemma NoName(w: string, words: seq<string>, name: string)
    requires IsPlain(w) && AllPlain(words) && NoBlank(name)
    requires w != name && !(name + ['='] <= w)
    ensures MatchAt([' '] + w + Join(words), [' '] + name) == None
  {
    assert IsBlank(' ') && !IsBlank('=');
    hide IsBlank;
    var key := [' '] + name;
    var rest := Join(words);
    var s := [' '] + w + rest;
    if key <= s {
      StartsWithin(w, rest, name);
      assert |w| > |name|;
      var after := s[|key|..];
      assert after == w[|name|..] + rest;
      assert after[0] == w[|name|] && !IsBlank(after[0]);
      assert w[|name|] == '=' ==> name + ['='] <= w;
    }
  }

  lemma TakenHere(name: string, value: string, words: seq<string>)
    ensures Taken([name + ['='] + value] + words, name)
         == if value != [] then Some((value, words)) else if words != [] then Some((words[0], words[1..])) else None
  {
    var all := [name + ['='] + value] + words;
    assert all[1..] == words;
    if value == [] {
      assert name + ['='] + value == name + ['='];
      assert words != [] ==> all[2..] == words[1..];
    } else {
      assert name + ['='] <= name + ['='] + value;
    }
  }

  /** `name=` or `name=v`. */
  lemma SignInWord(w: string, words: seq<string>, name: string)
    requires IsPlain(w) && AllPlain(words) && name + ['='] <= w
    ensures MatchIs([' '] + w + Join(words), [' '] + name, Taken([w] + words, name))
  {
    var key := [' '] + name;
    var value := w[|name| + 1..];
    assert value != [] ==> IsPlain(value);
    assert w == name + ['='] + value;
    TakenHere(name, value, words);
    var t := value + Join(words);
    hide Taken, Join, IsPlain, MatchIs;
    assert [' '] + w + Join(words) == key + (['='] + t);
    AfterKey(key, ['='] + t);
    assert (['='] + t)[1..] == t;
    hide AfterSign;
    AfterTheSign([' '] + w + Join(words), key, value, words);
  }

  /** `name`, and the sign in the next word or nowhere. */
  lemma SignApart(words: seq<string>, name: string)
    requires AllPlain(words) && IsPlain(name)
    ensures MatchIs([' '] + name + Join(words), [' '] + name, Taken([name] + words, name))
  {
    if words != [] && words[0] != [] && words[0][0] == '=' {
      var w, more := words[0], words[1..];
      assert w in words && AllPlain(more);
      assert IsPlain(w);
      hide Taken, MatchIs, Join, IsPlain;
      SignNext(w[1..], more, name);
      assert w == ['='] + w[1..] && words == [w] + more && [name] + words == [name, w] + more;
    } else {
      SignNowhere(words, name);
    }
  }

  lemma SignNowhere(words: seq<string>, name: string)
    requires AllPlain(words) && IsPlain(name) && (words == [] || words[0] == [] || words[0][0] != '=')
    ensures MatchIs([' '] + name + Join(words), [' '] + name, Taken([name] + words, name))
  {
    var key := [' '] + name;
    AfterKey(key, Join(words));
    assert ([name] + words)[1..] == words;
    JoinStarts(words);
    if words != [] {
      assert words[0] in words;
      assert IsPlain(words[0]);
      assert Join(words)[1] == words[0][0];
    }
    hide AfterSign, Join, IsPlain, IsBlank;
    assert AfterSign(key + Join(words), key) == None;
  }

  lemma JoinCons(w: string, more: seq<string>)
    ensures Join([w] + more) == [' '] + w + Join(more)
  {
    assert ([w] + more)[1..] == more;
  }

  /** `name =` or `name =v`. */
  lemma SignNext(value: string, more: seq<string>, name: string)
    requires (value != [] ==> IsPlain(value)) && AllPlain(more)
    ensures var w := ['='] + value;
            MatchIs([' '] + name + Join([w] + more), [' '] + name, Taken([name, w] + more, name))
  {
    var key := [' '] + name;
    var w := ['='] + value;
    assert w[1..] == value;
    TakenNext(w, more, name);
    JoinCons(w, more);
    var t := value + Join(more);
    hide Taken, Join, IsPlain, MatchIs;
    assert [' '] + w + Join(more) == [' ', '='] + t;
    AfterKey(key, [' ', '='] + t);
    assert ([' ', '='] + t)[2..] == t;
    hide AfterSign;
    AfterTheSign([' '] + name + Join([w] + more), key, value, more);
  }

  lemma TakenNext(w: string, more: seq<string>, name: string)
    requires w != [] && w[0] == '='
    ensures Taken([name, w] + more, name)
         == if w[1..] != [] then Some((w[1..], more)) else if more != [] then Some((more[0], more[1..])) else None
  {
    var all := [name, w] + more;
    assert all[0] == name && all[1] == w && all[2..] == more;
    assert more != [] ==> all[2] == more[0] && all[3..] == more[1..];
    assert w == ['='] + w[1..];
  }

  lemma OneMatch(words: seq<string>, name: string)
    requires words != [] && AllPlain(words) && NoBlank(name)
    ensures MatchIs(Join(words), [' '] + name, Taken(words, name))
  {
    var w, more := words[0], words[1..];
    assert w in words && AllPlain(more) && [w] + more == words;
    hide IsBlank, MatchAt;
    if name + ['='] <= w {
      SignInWord(w, more, name);
    } else if w == name {
      SignApart(more, name);
    } else {
      NoName(w, more, name);
    }
  }

  lemma TakenIsPlain(words: seq<string>, name: string)
    requires AllPlain(words) && Taken(words, name).Some?
    ensures AllPlain(Taken(words, name).value.1)
  {
    hide IsPlain;
  }

  lemma NamedStep(s: string, key: string)
    requires s != []
    ensures var m := MatchAt(s, key);
            NamedAll(s, key) == if m.Some? then [m.value.0] + NamedAll(m.value.1, key) else NamedAll(s[1..], key)
  {
  }

  lemma NamedTaken(s: string, key: string, value: string, rest: seq<string>)
    requires s != [] && MatchIs(s, key, Some((value, rest)))
    ensures NamedAll(s, key) == [value] + NamedAll(Join(rest), key)
  {
    NamedStep(s, key);
    hide MatchAt, NamedAll, Join;
  }

  lemma TailOf(c: char, a: string, b: string)
    ensures [c] + a + b != [] && ([c] + a + b)[1..] == a + b
  {
  }

  lemma NamedNot(w: string, rest: seq<string>, name: string)
    requires IsPlain(w) && MatchIs([' '] + w + Join(rest), [' '] + name, None)
    ensures NamedAll([' '] + w + Join(rest), [' '] + name) == NamedAll(Join(rest), [' '] + name)
  {
    var s := [' '] + w + Join(rest);
    NamedStep(s, [' '] + name);
    PlainIsNoBlank(w);
    hide MatchAt, NamedAll, Join, IsPlain, NoBlank;
    TailOf(' ', w, Join(rest));
    NothingIn(w, Join(rest), name);
  }

  lemma ValuesStep(words: seq<string>, name: string)
    requires words != []
    ensures var t := Taken(words, name);
            Values(words, name) == if t.Some? then [t.value.0] + Values(t.value.1, name) else Values(words[1..], name)
  {
    hide Taken;
  }

  /** The values a result names, by any words without blanks, are those a search of its text matches. */
  lemma {:induction false} NamedExactly(words: seq<string>, name: string)
    requires NoBlank(name) && AllPlain(words)
    ensures NamedAll(Join(words), [' '] + name) == Values(words, name)
    decreases |words|
  {
    if words == [] {
    } else {
      var w, more := words[0], words[1..];
      assert w in words && IsPlain(w) && AllPlain(more) by { hide IsPlain; }
      assert Join(words) == [' '] + w + Join(more);
      OneMatch(words, name);
      ValuesStep(words, name);
      hide *;
      if Taken(words, name).Some? {
        var (value, rest) := Taken(words, name).value;
        TakenIsPlain(words, name);
        NamedExactly(rest, name);
        NamedTaken(Join(words), [' '] + name, value, rest);
      } else {
        NamedExactly(more, name);
        NamedNot(w, more, name);
      }
    }
  }

  /** As they stand in a result: after its first word, `dmarc=pass`, say. */
  lemma NamedInResult(first: string, words: seq<string>, name: string)
    requires NoBlank(first) && NoBlank(name) && AllPlain(words)
    ensures NamedAll(first + Join(words), [' '] + name) == Values(words, name)
  {
    NothingIn(first, Join(words), name);
    NamedExactly(words, name);
  }

  lemma PlainIsNoBlank(w: string)
    requires IsPlain(w)
    ensures NoBlank(w)
  {
  }
}
