/**
 What an Authentication-Results header must say for its message to pass, in words (apps/server/src/mail-in.ts,
 `authResults` and `senderAuthenticated`): outside its comments and quotes, whatever blanks stand between them.
 */
module SenderWords {
  import opened Common
  import opened AuthResults
  import opened SenderCheck

  /** Lower-casing goes word by word: it keeps the spaces between words, and makes no blank of a word. */
  ghost predicate Wordwise(lower: string -> string) {
    && (forall a, b :: lower(a + [' '] + b) == lower(a) + [' '] + lower(b))
    && (forall w :: IsPlain(w) ==> IsPlain(lower(w)))
    && lower([]) == []
  }

  /** The words of a part. */
  function WordsOf(pieces: seq<Piece>, lower: string -> string): seq<string> {
    if pieces == [] then [] else [lower(Leaves(pieces[0].word))] + WordsOf(pieces[1..], lower)
  }

  function Spaced(words: seq<string>): string {
    if words == [] then [] else words[0] + Join(words[1..])
  }

  lemma {:induction false} PartIsItsWords(pieces: seq<Piece>, lower: string -> string)
    requires PiecesFit(pieces) && Wordwise(lower)
    ensures AllPlain(WordsOf(pieces, lower)) && lower(Canonical(pieces)) == Spaced(WordsOf(pieces, lower))
    decreases |pieces|
  {
    hide IsBlank, IsWord, IsGap, Leaves;
    if pieces != [] {
      var w := Leaves(pieces[0].word);
      assert PieceFits(pieces[0], |pieces| == 1);
      NotEmpty(pieces[0].word);
      WordLeaves(pieces[0].word);
      assert IsPlain(w);
      RestFits(pieces);
      PartIsItsWords(pieces[1..], lower);
      var more := WordsOf(pieces[1..], lower);
      assert WordsOf(pieces, lower)[1..] == more;
      if |pieces| > 1 {
        SpacedMore(lower(w), more);
        assert more != [];
      }
    }
  }

  lemma SpacedMore(w: string, more: seq<string>)
    requires more != []
    ensures Join(more) == [' '] + Spaced(more) && w + Join(more) == w + [' '] + Spaced(more)
  {
  }

  // --- The words of a result --------------------------------------------------------------------------

  /** The first of the words is the name and has the sign, or the next one starts with it. */
  predicate Signed(words: seq<string>, name: string) {
    words != [] && (name + ['='] <= words[0] || (words[0] == name && |words| > 1 && ['='] <= words[1]))
  }

  lemma SpaceBoth(s: string, key: string)
    ensures AfterSign([' '] + s, [' '] + key) == AfterSign(s, key)
  {
    var k, t := [' '] + key, [' '] + s;
    PrefixBoth(s, key);
    if key <= s {
      assert s == key + s[|key|..];
      assert t == k + s[|key|..];
      AfterKey(k, s[|key|..]);
      AfterKey(key, s[|key|..]);
    }
  }

  lemma PrefixBoth(s: string, key: string)
    ensures [' '] + key <= [' '] + s <==> key <= s
  {
    var k, t := [' '] + key, [' '] + s;
    if k <= t {
      assert key == k[1..] && s == t[1..];
      assert t == k + t[|k|..];
    }
  }

  /** A result has the sign after its first name exactly when its words do. */
  lemma SignedExactly(words: seq<string>, name: string)
    requires words != [] && AllPlain(words) && IsPlain(name)
    ensures AfterSign(Spaced(words), name).Some? <==> Signed(words, name)
  {
    var w, more := words[0], words[1..];
    assert w in words && AllPlain(more);
    assert IsPlain(w);
    if name + ['='] <= w {
      var v := w[|name| + 1..];
      assert w == name + ['='] + v;
      assert w + Join(more) == name + (['='] + v + Join(more));
      AfterKey(name, ['='] + v + Join(more));
    } else if w == name {
      AfterKey(name, Join(more));
      if more != [] { assert more[0] in more && IsPlain(more[0]); }
    } else {
      OtherWord(w, more, name);
    }
  }

  lemma OtherWord(w: string, more: seq<string>, name: string)
    requires IsPlain(w) && AllPlain(more) && NoBlank(name) && w != name && !(name + ['='] <= w)
    ensures AfterSign(w + Join(more), name) == None
  {
    assert IsBlank(' ');
    JoinStarts(more);
    var rest := Join(more);
    var s := w + rest;
    hide Join, IsBlank;
    if name <= s {
      assert [' '] + name <= [' '] + w + rest by {
        assert [' '] + w + rest == [' '] + s;
        assert s == name + s[|name|..];
        assert [' '] + s == [' '] + name + s[|name|..];
      }
      StartsWithin(w, rest, name);
      assert |w| > |name|;
      assert s[|name|..][0] == w[|name|] && !IsBlank(w[|name|]);
      assert w[|name|] == '=' ==> name + ['='] <= w;
    }
  }

  /** Blanks in it are spaces. */
  ghost predicate OnlySpaces(s: string) {
    forall i :: 0 <= i < |s| && IsBlank(s[i]) ==> s[i] == ' '
  }

  lemma {:induction false} JoinSpaces(words: seq<string>)
    requires AllPlain(words)
    ensures OnlySpaces(Join(words))
  {
    hide IsBlank;
    if words != [] {
      assert words[0] in words && IsPlain(words[0]) && forall w :: w in words[1..] ==> w in words;
      JoinSpaces(words[1..]);
    }
  }

  /** A text starts with a word exactly when that is the word it starts with. */
  lemma {:induction false} StartsWithWord(s: string, w: string)
    requires OnlySpaces(s) && NoBlank(w)
    ensures Word(s) == w <==> w <= s && (|s| == |w| || s[|w|] == ' ')
  {
    assert IsBlank(' ');
    hide IsBlank;
    if s != [] && w != [] && s[0] == w[0] {
      StartsWithWord(s[1..], w[1..]);
      assert s == [s[0]] + s[1..] && w == [w[0]] + w[1..];
      if w[1..] <= s[1..] { assert s[1..] == w[1..] + s[1..][|w| - 1..]; }
      assert w[1..] <= s[1..] <==> w <= s;
    }
  }

  lemma RestSpaces(s: string, key: string)
    requires OnlySpaces(s) && AfterSign(s, key).Some?
    ensures OnlySpaces(PastSpace(AfterSign(s, key).value))
  {
    hide IsBlank;
    var rest := s[|key|..];
    assert OnlySpaces(rest) && OnlySpaces(rest[1..]);
    assert |rest| > 1 ==> OnlySpaces(rest[2..]);
  }

  /** A result passes exactly when the value of its `dmarc` is the word `pass`. */
  lemma PassesExactlyWhen(words: seq<string>)
    requires words != [] && AllPlain(words)
    ensures Passes(Spaced(words)) <==> Taken(words, DMARC).Some? && Taken(words, DMARC).value.0 == PASS
  {
    var s := Spaced(words);
    SpacedMore([], words);
    DmarcIsPlain();
    SpaceBoth(s, DMARC);
    OneMatch(words, DMARC);
    JoinSpaces(words);
    assert OnlySpaces(s) by { SpacesAfter(s); }
    hide Taken, Join, IsBlank, Word, PastSpace, AfterSign;
    if AfterSign(s, DMARC).Some? {
      RestSpaces(s, DMARC);
      StartsWithWord(PastSpace(AfterSign(s, DMARC).value), PASS);
    }
  }

  lemma SpacesAfter(s: string)
    requires OnlySpaces([' '] + s)
    ensures OnlySpaces(s)
  {
    hide IsBlank;
    forall i | 0 <= i < |s| && IsBlank(s[i]) ensures s[i] == ' ' {
      assert ([' '] + s)[i + 1] == s[i];
    }
  }

  lemma DmarcIsPlain()
    ensures IsPlain(DMARC) && NoBlank(PASS)
  {
  }

  // --- The verdict -----------------------------------------------------------------------------------------

  const HEADER_FROM_NAME: string := "header.from"

  function OnlySigned(results: seq<seq<string>>, name: string): seq<seq<string>> {
    if results == [] then []
    else (if Signed(results[0], name) then [results[0]] else []) + OnlySigned(results[1..], name)
  }

  /** There is one `dmarc` result, it is `pass`, and the one domain it names is the sender's. */
  predicate Says(parts: seq<seq<string>>, from: string) {
    var dmarc := OnlySigned(if parts == [] then [] else parts[1..], DMARC);
    && |dmarc| == 1
    && Taken(dmarc[0], DMARC).Some? && Taken(dmarc[0], DMARC).value.0 == PASS
    && Values(dmarc[0][1..], HEADER_FROM_NAME) == [DomainOf(from)]
  }

  function AllSpaced(parts: seq<seq<string>>): seq<string> {
    if parts == [] then [] else [Spaced(parts[0])] + AllSpaced(parts[1..])
  }

  ghost predicate AllPlainIn(parts: seq<seq<string>>) {
    forall ws :: ws in parts ==> AllPlain(ws)
  }

  lemma {:induction false} OnlySame(results: seq<seq<string>>)
    requires AllPlainIn(results)
    ensures OnlyDmarc(AllSpaced(results)) == AllSpaced(OnlySigned(results, DMARC))
    ensures forall ws :: ws in OnlySigned(results, DMARC) ==> ws in results && ws != []
  {
    hide AllPlain, Spaced, Signed, IsDmarc;
    if results != [] {
      var ws := results[0];
      assert ws in results && forall u :: u in results[1..] ==> u in results;
      OnlySame(results[1..]);
      DmarcOrNot(ws);
      assert AllSpaced(results)[1..] == AllSpaced(results[1..]);
      var more := OnlySigned(results[1..], DMARC);
      assert ([ws] + more)[1..] == more && [] + more == more && [] + AllSpaced(more) == AllSpaced(more);
      assert AllSpaced([ws] + more) == [Spaced(ws)] + AllSpaced(more);
      assert forall u :: u in [ws] + more ==> u == ws || u in more;
    }
  }

  lemma DmarcOrNot(words: seq<string>)
    requires AllPlain(words)
    ensures IsDmarc(Spaced(words)) <==> Signed(words, DMARC)
    ensures Signed(words, DMARC) ==> words != []
  {
    if words != [] {
      DmarcIsPlain();
      SignedExactly(words, DMARC);
    }
  }

  lemma NamesFrom()
    ensures HEADER_FROM == [' '] + HEADER_FROM_NAME && NoBlank(HEADER_FROM_NAME)
  {
  }

  /** What a header says follows from the words of its parts alone. */
  lemma VouchesInWords(parts: seq<seq<string>>, from: string)
    requires AllPlainIn(parts)
    ensures Vouches(AllSpaced(parts), from) <==> Says(parts, from)
  {
    var results := if parts == [] then [] else parts[1..];
    assert AllPlainIn(results);
    assert (if parts == [] then [] else AllSpaced(parts)[1..]) == AllSpaced(results);
    OnlySame(results);
    var dmarc := OnlySigned(results, DMARC);
    AllSpacedLength(dmarc);
    hide OnlyDmarc, OnlySigned, Passes, NamedAll, Values, Taken;
    if |dmarc| == 1 {
      assert dmarc[0] in dmarc;
      var ws := dmarc[0];
      assert AllSpaced(dmarc)[0] == Spaced(ws);
      PassesExactlyWhen(ws);
      assert AllPlain(ws[1..]);
      NamesFrom();
      assert ws[0] in ws && NoBlank(ws[0]);
      NamedInResult(ws[0], ws[1..], HEADER_FROM_NAME);
    }
  }

  lemma {:induction false} AllSpacedLength(parts: seq<seq<string>>)
    ensures |AllSpaced(parts)| == |parts|
  {
    if parts != [] {
      AllSpacedLength(parts[1..]);
    }
  }

  /** The words of every part of a value. */
  function AllWords(parts: seq<Part>, lower: string -> string): seq<seq<string>> {
    if parts == [] then [] else [WordsOf(parts[0].pieces, lower)] + AllWords(parts[1..], lower)
  }

  lemma {:induction false} PartsAreWords(parts: seq<Part>, lower: string -> string)
    requires AllFit(parts) && Wordwise(lower)
    ensures AllPlainIn(AllWords(parts, lower)) && CanonicalParts(parts, lower) == AllSpaced(AllWords(parts, lower))
    decreases |parts|
  {
    hide Wordwise, PiecesFit, IsGap, AllPlain, Canonical, WordsOf, Spaced;
    if parts != [] {
      assert parts[0] in parts && forall p :: p in parts[1..] ==> p in parts;
      assert PartFits(parts[0]);
      PartIsItsWords(parts[0].pieces, lower);
      PartsAreWords(parts[1..], lower);
      var words := AllWords(parts, lower);
      assert words[1..] == AllWords(parts[1..], lower);
      assert CanonicalParts(parts, lower) == [lower(Canonical(parts[0].pieces))] + CanonicalParts(parts[1..], lower);
    }
  }

  /** The server that signed a header: the first word of its first part, if it has one. */
  function Signer(parts: seq<seq<string>>): string {
    if parts == [] || parts[0] == [] then [] else parts[0][0]
  }

  lemma {:induction false} FirstIsWord(w: string, more: seq<string>)
    requires NoBlank(w)
    ensures FirstWord(w + Join(more)) == w
  {
    assert IsBlank(' ');
    JoinStarts(more);
    hide IsBlank;
    if w == [] {
      assert w + Join(more) == Join(more);
    } else {
      assert (w + Join(more))[1..] == w[1..] + Join(more);
      FirstIsWord(w[1..], more);
    }
  }

  /**
   For any header at all: whether it decides, and whether it vouches for the sender, by the words of its
   parts outside comments and quotes. It decides if it can't be read or its first word is one of the mailbox's
   servers; it vouches if there is exactly one `dmarc` result, its value is `pass`, and `header.from` is named
   once in it, as the sender's domain.
   */
  lemma VerdictInWords(h: Header, wanted: seq<string>, from: string, lower: string -> string)
    requires Wordwise(lower)
    ensures Decides(h, wanted, lower) <==>
            && lower(h.key) == HEADER_KEY
            && (PartsIn(h.value).Some? ==> Signer(AllWords(PartsIn(h.value).value, lower)) in wanted)
    ensures Verdict(h, from, lower) <==>
            PartsIn(h.value).Some? && Says(AllWords(PartsIn(h.value).value, lower), from)
  {
    VerdictOfAny(h, wanted, from, lower);
    EveryValueIsParts(h.value, lower);
    hide Decides, Verdict, Vouches, Says, Parse, Wordwise, AllFit, AllPlain, Results, Tokens, Render;
    if PartsIn(h.value).Some? {
      var parts := PartsIn(h.value).value;
      PartsAreWords(parts, lower);
      VouchesInWords(AllWords(parts, lower), from);
      SignerIsFirst(AllWords(parts, lower));
      assert |CanonicalParts(parts, lower)| == |parts| > 0;
    }
  }

  lemma SignerIsFirst(parts: seq<seq<string>>)
    requires AllPlainIn(parts) && parts != []
    ensures FirstWord(AllSpaced(parts)[0]) == Signer(parts)
  {
    var ws := parts[0];
    assert ws in parts && AllPlain(ws);
    if ws != [] {
      assert ws[0] in ws;
      FirstIsWord(ws[0], ws[1..]);
    }
  }

  // --- The sender's domain ------------------------------------------------------------------------------

  /** The domain of an address is what follows its last `@`, or all of it. */
  lemma {:induction false} DomainIs(local: string, domain: string)
    requires '@' !in domain
    ensures DomainOf(local + "@" + domain) == domain && DomainOf(domain) == domain
    decreases |domain|
  {
    var from := local + "@" + domain;
    if domain != [] {
      var less := domain[..|domain| - 1];
      DomainIs(local, less);
      assert from[..|from| - 1] == local + "@" + less && less + [domain[|domain| - 1]] == domain;
    }
  }

  /**
   For any header at all and a sender at `domain`: the header decides if it is an Authentication-Results header
   that can't be read or whose first word is one of the mailbox's servers, and vouches if exactly one of the
   results after that is of `dmarc`, its value is `pass`, and the one `header.from` named in it is the domain.
   */
  lemma VerdictOnSender(h: Header, wanted: seq<string>, local: string, domain: string, lower: string -> string)
    requires Wordwise(lower) && '@' !in domain
    ensures Decides(h, wanted, lower) <==>
            && lower(h.key) == "authentication-results"
            && (PartsIn(h.value).Some? ==> Signer(AllWords(PartsIn(h.value).value, lower)) in wanted)
    ensures forall from :: from == domain || from == local + "@" + domain ==>
              (Verdict(h, from, lower) <==>
               && PartsIn(h.value).Some? && PartsIn(h.value).value != []
               && var dmarc := OnlySigned(AllWords(PartsIn(h.value).value, lower)[1..], "dmarc");
                  && |dmarc| == 1 && Taken(dmarc[0], "dmarc").Some? && Taken(dmarc[0], "dmarc").value.0 == "pass"
                  && Values(dmarc[0][1..], "header.from") == [domain])
  {
    DomainIs(local, domain);
    VerdictInWords(h, wanted, domain, lower);
    VerdictInWords(h, wanted, local + "@" + domain, lower);
    hide Decides, Verdict, Wordwise, Taken, Values, Signed, OnlySigned;
  }

  lemma PlainWords(domain: string)
    requires IsPlain(domain)
    ensures IsPlain("dmarc=pass") && IsPlain("header.from=" + domain)
  {
    forall c: char | 'a' <= c <= 'z' || c == '.' || c == '=' ensures !IsBlank(c) {}
    hide IsBlank;
    assert forall i :: 0 <= i < |"dmarc=pass"| ==> 'a' <= "dmarc=pass"[i] <= 'z' || "dmarc=pass"[i] == '=';
    assert forall i :: 0 <= i < |"header.from="| ==>
        'a' <= "header.from="[i] <= 'z' || "header.from="[i] == '.' || "header.from="[i] == '=';
  }

  lemma TakenPlainly(domain: string)
    requires IsPlain(domain)
    ensures var words := ["dmarc=pass", "header.from=" + domain];
            && Signed(words, "dmarc") && Taken(words, "dmarc") == Some(("pass", ["header.from=" + domain]))
            && Values(words[1..], "header.from") == [domain]
  {
    var named := "header.from=" + domain;
    var words := ["dmarc=pass", named];
    var one: seq<string> := [named];
    assert words[1..] == one && one[1..] == [];
    assert "dmarc=pass" == "dmarc" + ['='] + "pass" && "dmarc=pass"[6..] == "pass";
    assert named == "header.from" + ['='] + domain && named[12..] == domain;
    assert "dmarc" + ['='] < "dmarc=pass" && "header.from" + ['='] < named;
    assert Taken([named], "header.from") == Some((domain, []));
    assert Values([], "header.from") == [];
  }

  /** The plainest header that vouches for a sender at `domain`. */
  lemma PlainlyVouches(signer: string, local: string, domain: string)
    requires IsPlain(signer) && IsPlain(domain) && '@' !in domain
    ensures Vouches([signer, "dmarc=pass" + [' '] + ("header.from=" + domain)], local + "@" + domain)
  {
    hide IsPlain, Taken, Values, Vouches, Signed;
    var words := ["dmarc=pass", "header.from=" + domain];
    var parts := [[signer], words];
    DomainIs(local, domain);
    PlainWords(domain);
    TakenPlainly(domain);
    var results: seq<seq<string>> := [words];
    assert parts[1..] == results && results[1..] == [];
    assert OnlySigned(results, "dmarc") == results;
    VouchesInWords(parts, local + "@" + domain);
    TwoSpaced([signer], words[0], words[1]);
    OneSpaced(signer);
  }

  lemma OneSpaced(a: string)
    ensures Spaced([a]) == a
  {
    var one: seq<string> := [a];
    assert one[1..] == [];
  }

  lemma TwoSpaced(first: seq<string>, a: string, b: string)
    ensures AllSpaced([first, [a, b]]) == [Spaced(first), a + [' '] + b]
  {
    var parts := [first, [a, b]];
    var last, two, one := [[a, b]], [a, b], [b];
    assert parts[1..] == last && last[1..] == [] && two[1..] == one && one[1..] == [];
    assert Join(one) == [' '] + b + Join([]);
    assert Join(one) == [' '] + b;
    assert Spaced(two) == a + Join(one) == a + [' '] + b;
    assert AllSpaced(last) == [Spaced(two)] + AllSpaced([]);
  }
}
