/**
 What the tunnel's wait takes for an address (apps/server/src/tunnel.ts, `QUICK_URL` and `REGISTERED`): the
 expression, as the grammar it is.
 */
module TunnelAddress {
  import opened Common
  import opened TunnelUp

  /** `[a-z0-9]+`. */
  ghost predicate IsGroup(g: string) {
    g != [] && forall c :: c in g ==> 'a' <= c <= 'z' || '0' <= c <= '9'
  }

  /** The groups with a hyphen between two. */
  function Hyphened(groups: seq<string>): string {
    if groups == [] then []
    else if |groups| == 1 then groups[0]
    else groups[0] + ['-'] + Hyphened(groups[1..])
  }

  /** `[a-z0-9]+(-[a-z0-9]+)*`. */
  ghost predicate IsGroups(groups: seq<string>) {
    groups != [] && forall g :: g in groups ==> IsGroup(g)
  }

  /** A host's name, `api` being one too. */
  ghost predicate IsName(h: string) {
    && h != [] && IsHostChar(h[0]) && IsHostChar(h[|h| - 1])
    && forall i: nat | i < |h| :: InHost(h, i)
  }

  lemma NameCat(g: string, h: string)
    requires IsGroup(g) && IsName(h)
    ensures IsName(g + ['-'] + h)
  {
    var s := g + ['-'] + h;
    assert s[0] == g[0] && g[0] in g && s[|s| - 1] == h[|h| - 1];
    forall i: nat | i < |s| ensures InHost(s, i) {
      if i < |g| {
        assert s[i] == g[i] && g[i] in g;
      } else if i == |g| {
        assert s[i - 1] == g[i - 1] && g[i - 1] in g;
      } else {
        assert InHost(h, i - |g| - 1);
        assert s[i] == h[i - |g| - 1];
      }
    }
  }

  lemma GroupIsName(g: string)
    requires IsGroup(g)
    ensures IsName(g)
  {
    forall i: nat | i < |g| ensures IsHostChar(g[i]) { assert g[i] in g; }
  }

  lemma {:induction false} GroupsAreName(groups: seq<string>)
    requires IsGroups(groups)
    ensures IsName(Hyphened(groups))
    decreases |groups|
  {
    hide IsGroup, IsName;
    assert groups[0] in groups;
    if |groups| == 1 {
      GroupIsName(groups[0]);
    } else {
      var more := groups[1..];
      assert forall g :: g in more ==> g in groups;
      GroupsAreName(more);
      NameCat(groups[0], Hyphened(more));
    }
  }

  /** Where the first group of a name ends. */
  lemma {:induction false} FirstGroup(h: string) returns (n: nat)
    requires h != [] && IsHostChar(h[0])
    ensures 0 < n <= |h| && IsGroup(h[..n]) && (n < |h| ==> !IsHostChar(h[n]))
    decreases |h|
  {
    if |h| > 1 && IsHostChar(h[1]) {
      var m := FirstGroup(h[1..]);
      n := m + 1;
      assert h[..n] == [h[0]] + h[1..][..m];
    } else {
      n := 1;
      assert h[..1] == [h[0]];
    }
  }

  lemma {:induction false} NameIsGroups(h: string) returns (groups: seq<string>)
    requires IsName(h)
    ensures IsGroups(groups) && Hyphened(groups) == h
    decreases |h|
  {
    var n := FirstGroup(h);
    if n == |h| {
      groups := [h];
      assert h[..n] == h;
    } else {
      assert InHost(h, n);
      assert n < |h| - 1;
      assert InHost(h, n + 1);
      var rest := h[n + 1..];
      RestIsName(h, n + 1);
      var more := NameIsGroups(rest);
      groups := [h[..n]] + more;
      assert groups[1..] == more;
      assert h == h[..n] + ['-'] + rest;
    }
  }

  lemma RestIsName(h: string, n: nat)
    requires IsName(h) && 0 < n < |h| && h[n - 1] == '-'
    ensures IsName(h[n..])
  {
    var rest := h[n..];
    assert InHost(h, n);
    forall i: nat | i < |rest| ensures InHost(rest, i) {
      assert InHost(h, n + i);
    }
  }

  /**
   What is taken for a quick tunnel's address, with the blanks around it: a blank, `https://`, groups of lower-case
   letters and digits joined by single hyphens, other than `api`, `.trycloudflare.com`, and a blank.
   */
  lemma QuickExactly(before: char, groups: seq<string>, after: char)
    requires IsGroups(groups)
    ensures IsQuick([before] + "https://" + Hyphened(groups) + ".trycloudflare.com" + [after])
        <==> IsBlank(before) && IsBlank(after) && Hyphened(groups) != "api"
  {
    var h := Hyphened(groups);
    GroupsAreName(groups);
    var s := [before] + SCHEME + h + DOMAIN + [after];
    var n := |s| - 1;
    assert s[1..1 + |SCHEME|] == SCHEME && s[n - |DOMAIN|..n] == DOMAIN && s[1 + |SCHEME|..n - |DOMAIN|] == h;
    assert s[0] == before && s[n] == after;
    hide IsBlank, Hyphened;
  }

  /** And nothing else is. */
  lemma QuickOnly(s: string) returns (before: char, groups: seq<string>, after: char)
    requires IsQuick(s)
    ensures IsGroups(groups) && s == [before] + "https://" + Hyphened(groups) + ".trycloudflare.com" + [after]
  {
    var n := |s| - 1;
    before, after := s[0], s[n];
    var h := s[1 + |SCHEME|..n - |DOMAIN|];
    groups := NameIsGroups(h);
    hide *;
    CutInFive(s, 1 + |SCHEME|, n - |DOMAIN|);
  }

  lemma CutInFive(s: string, a: nat, b: nat)
    requires 1 <= a <= b < |s|
    ensures s == [s[0]] + s[1..a] + s[a..b] + s[b..|s| - 1] + [s[|s| - 1]]
  {
  }

  lemma RegisteredExactly(text: string)
    ensures Contains(text, IsRegistered) <==>
            exists i: nat :: i <= |text| && "Registered tunnel connection" <= text[i..]
  {
    if Contains(text, IsRegistered) {
      var i, j :| 0 <= i <= j <= |text| && Accepted(text, i, j, IsRegistered);
      assert text[i..][..j - i] == text[i..j];
    }
    if i: nat :| i <= |text| && REGISTERED <= text[i..] {
      assert text[i..i + |REGISTERED|] == text[i..][..|REGISTERED|];
      assert Accepted(text, i, i + |REGISTERED|, IsRegistered);
    }
  }
}
