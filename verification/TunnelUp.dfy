/**
 Waiting for the tunnel (apps/server/src/tunnel.ts, `tunnelUp`): what cloudflared writes comes in
 chunks cut anywhere; only its last 4,096 characters are kept between them.
 */
module TunnelUp {
  import opened Common

  const KEEP: nat := 4_096
  const REGISTERED: string := "Registered tunnel connection"
  const SCHEME: string := "https://"
  const DOMAIN: string := ".trycloudflare.com"

  predicate IsHostChar(c: char) {
    'a' <= c <= 'z' || '0' <= c <= '9'
  }

  /** Letters and digits, in groups joined by single hyphens; not `api`. */
  predicate IsHost(h: string) {
    && h != "" && h != "api"
    && IsHostChar(h[0]) && IsHostChar(h[|h| - 1])
    && (forall i: nat | i < |h| :: InHost(h, i))
  }

  /** A letter or digit, or a hyphen after one. */
  predicate InHost(h: string, i: nat)
    requires i < |h|
  {
    IsHostChar(h[i]) || (h[i] == '-' && 0 < i && IsHostChar(h[i - 1]))
  }

  /** A quick tunnel's address with the blank before and after it (the expression looks at both). */
  predicate IsQuick(s: string) {
    var n := |s| - 1;
    && |s| > 2 + |SCHEME| + |DOMAIN|
    && IsBlank(s[0]) && IsBlank(s[n])
    && s[1..1 + |SCHEME|] == SCHEME && s[n - |DOMAIN|..n] == DOMAIN
    && IsHost(s[1 + |SCHEME|..n - |DOMAIN|])
  }

  predicate IsRegistered(s: string) {
    s == REGISTERED
  }

  /** Whether some stretch of `text` is one the expression `accepts`. */
  predicate Contains(text: string, accepts: string -> bool) {
    exists i, j | 0 <= i <= j <= |text| :: Accepted(text, i, j, accepts)
  }

  predicate Accepted(text: string, i: nat, j: nat, accepts: string -> bool)
    requires i <= j <= |text|
  {
    accepts(text[i..j])
  }

  /** `text.slice(-4096)`. */
  function Last(text: string): string {
    if |text| <= KEEP then text else text[|text| - KEEP..]
  }

  /** The stretch from `i` to `j` is an address with its blanks. */
  predicate QuickAt(text: string, i: nat, j: nat) {
    i <= j <= |text| && IsQuick(text[i..j])
  }

  /** The first address in `text`, from place `i` on. */
  function AddressFrom(text: string, i: nat, j: nat): Option<string>
    requires i <= j <= |text|
    decreases |text| - i, |text| - j
  {
    if j - i > 2 && QuickAt(text, i, j) then Some(text[i + 1..j - 1])
    else if j < |text| then AddressFrom(text, i, j + 1)
    else if i < |text| then AddressFrom(text, i + 1, i + 1)
    else None
  }

  function Address(text: string): Option<string> {
    AddressFrom(text, 0, 0)
  }

  /** What the promise settles with: where the tunnel is, or why there is none. */
  datatype Outcome = Up(address: string) | Failed(why: string)

  datatype Seen = Seen(recent: string, address: Option<string>, registered: bool, settled: Option<Outcome>)

  /** Its first outcome stands. */
  function Done(s: Seen, o: Outcome): Seen {
    if s.settled.Some? then s else s.(settled := Some(o))
  }

  /** One chunk read; `named` is a named tunnel's host. */
  function Read(s: Seen, named: Option<string>, chunk: string): Seen {
    var recent := s.recent + chunk;
    var t := Seen(Last(recent),
                  if named == None && s.address == None then Address(recent) else s.address,
                  s.registered || Contains(recent, IsRegistered), s.settled);
    if !t.registered then t
    else if named.Some? then Done(t, Up(SCHEME + named.value))
    else if t.address.Some? then Done(t, Up(t.address.value))
    else t
  }

  class Watch {
    const named: Option<string>
    var recent: string
    var address: Option<string>
    var registered: bool
    var settled: Option<Outcome>

    constructor (named: Option<string>)
      ensures this.named == named && Value() == Start()
    {
      this.named := named;
      recent, address, registered, settled := "", None, false, None;
    }

    function Value(): Seen
      reads this
    {
      Seen(recent, address, registered, settled)
    }

    /** `done`. */
    method Settle(o: Outcome)
      modifies this
      ensures Value() == Done(old(Value()), o)
    {
      if settled.Some? {
        return;
      }
      settled := Some(o);
    }

    method OnData(chunk: string)
      modifies this
      ensures Value() == Read(old(Value()), named, chunk)
    {
      recent := recent + chunk;
      if named == None && address == None {
        address := Address(recent);
      }
      registered := registered || Contains(recent, IsRegistered);
      recent := Last(recent);
      if !registered {
        return;
      }
      if named.Some? {
        Settle(Up(SCHEME + named.value));
      } else if address.Some? {
        Settle(Up(address.value));
      }
    }
  }

  function Start(): Seen {
    Seen("", None, false, None)
  }

  // --- Runs -------------------------------------------------------------------------------------

  /** A chunk comes, or something ends the wait: the timer, an error, the program's end, a stop. */
  datatype Event = Data(chunk: string) | Ends(why: string)

  function Next(s: Seen, named: Option<string>, e: Event): Seen {
    match e
    case Data(chunk) => Read(s, named, chunk)
    case Ends(why) => Done(s, Failed(why))
  }

  /** The state after `es`, the latest event last. */
  function Exec(named: Option<string>, es: seq<Event>): Seen {
    if es == [] then Start() else Next(Exec(named, es[..|es| - 1]), named, es[|es| - 1])
  }

  /** Everything the program wrote. */
  function Output(es: seq<Event>): string {
    if es == [] then "" else
    Output(es[..|es| - 1]) + match es[|es| - 1] case Data(chunk) => chunk case Ends(_) => ""
  }

  /** No stretch of `text` the expression accepts is longer than what is kept and one character. */
  ghost predicate Short(text: string, accepts: string -> bool) {
    forall i, j | 0 <= i <= j <= |text| :: Accepted(text, i, j, accepts) ==> j - i <= KEEP + 1
  }

  /** Not the empty stretch: there is something to find. */
  ghost predicate NonEmpty(accepts: string -> bool) {
    !accepts("")
  }

  /**
   The window loses nothing: what is in all the output, and was not in the output before the last
   chunk, is in what was kept of that and the chunk.
   */
  lemma {:induction false} WindowFinds(before: string, chunk: string, accepts: string -> bool)
    requires Short(before + chunk, accepts) && NonEmpty(accepts)
    ensures Contains(before + chunk, accepts) <==> Contains(before, accepts) || Contains(Last(before) + chunk, accepts)
  {
    var all := before + chunk;
    var kept := Last(before) + chunk;
    var cut := |before| - |Last(before)|;
    assert forall k :: cut <= k < |all| ==> all[k] == kept[k - cut];
    if Contains(all, accepts) {
      var i, j :| 0 <= i <= j <= |all| && Accepted(all, i, j, accepts);
      if j <= |before| {
        assert all[i..j] == before[i..j];
        assert Accepted(before, i, j, accepts);
      } else {
        assert all[i..j] == kept[i - cut..j - cut];
        assert Accepted(kept, i - cut, j - cut, accepts);
      }
    }
    if Contains(before, accepts) {
      var i, j :| 0 <= i <= j <= |before| && Accepted(before, i, j, accepts);
      assert before[i..j] == all[i..j];
      assert Accepted(all, i, j, accepts);
    }
    if Contains(kept, accepts) {
      var i, j :| 0 <= i <= j <= |kept| && Accepted(kept, i, j, accepts);
      assert kept[i..j] == all[i + cut..j + cut];
      assert Accepted(all, i + cut, j + cut, accepts);
    }
  }

  lemma LastOfLast(before: string, chunk: string)
    ensures Last(Last(before) + chunk) == Last(before + chunk)
  {
  }

  lemma QuickIsLong(text: string, i: nat, j: nat)
    ensures QuickAt(text, i, j) ==> i <= j <= |text| && j - i > 2
  {
  }

  /** Starts at `i` or after; if there, ends at `j` or after. */
  predicate From(i: nat, j: nat, c: nat, d: nat) {
    i < c || (i == c && j <= d)
  }

  /** The first address: the one that starts first. */
  ghost predicate FirstFrom(text: string, i: nat, j: nat, a: nat, b: nat) {
    QuickAt(text, a, b) && From(i, j, a, b)
    && forall c: nat, d: nat :: QuickAt(text, c, d) && From(i, j, c, d) ==> From(a, b, c, d)
  }

  /** The place of an address that is given without its blanks. */
  ghost predicate IsAt(text: string, a: nat, b: nat, address: string) {
    a + 2 < b <= |text| && QuickAt(text, a, b) && address == text[a + 1..b - 1]
  }

  ghost predicate IsFirst(text: string, i: nat, j: nat, r: Option<string>) {
    match r
    case None => forall c: nat, d: nat :: From(i, j, c, d) ==> !QuickAt(text, c, d)
    case Some(v) => exists a: nat, b: nat :: FirstFrom(text, i, j, a, b) && IsAt(text, a, b, v)
  }

  lemma FirstHere(text: string, i: nat, j: nat)
    requires QuickAt(text, i, j) && i + 2 < j <= |text|
    ensures IsFirst(text, i, j, Some(text[i + 1..j - 1]))
  {
    hide QuickAt;
    assert FirstFrom(text, i, j, i, j) && IsAt(text, i, j, text[i + 1..j - 1]);
  }

  /** The next place to look at, after one where no address is. */
  lemma NothingHere(text: string, i: nat, j: nat)
    requires i <= j <= |text| && !QuickAt(text, i, j)
    ensures var (i', j') := if j < |text| then (i, j + 1) else (i + 1, i + 1);
            forall c: nat, d: nat :: QuickAt(text, c, d) ==> (From(i, j, c, d) <==> From(i', j', c, d))
  {
    forall c: nat, d: nat ensures QuickAt(text, c, d) ==> c + 2 < d <= |text| {
      QuickIsLong(text, c, d);
    }
    hide QuickAt;
  }

  lemma {:induction false} AddressExactly(text: string, i: nat, j: nat)
    requires i <= j <= |text|
    ensures IsFirst(text, i, j, AddressFrom(text, i, j))
    decreases |text| - i, |text| - j
  {
    QuickIsLong(text, i, j);
    hide QuickAt, IsFirst, From;
    if QuickAt(text, i, j) {
      FirstHere(text, i, j);
    } else {
      NothingHere(text, i, j);
      if j < |text| {
        AddressExactly(text, i, j + 1);
        FirstGoesOn(text, i, j, i, j + 1, AddressFrom(text, i, j + 1));
      } else if i < |text| {
        AddressExactly(text, i + 1, i + 1);
        FirstGoesOn(text, i, j, i + 1, i + 1, AddressFrom(text, i + 1, i + 1));
      } else {
        NoneAtEnd(text, j);
      }
    }
  }

  lemma NoneAtEnd(text: string, j: nat)
    ensures IsFirst(text, |text|, j, None)
  {
    forall c: nat, d: nat ensures QuickAt(text, c, d) ==> c + 2 < d <= |text| {
      QuickIsLong(text, c, d);
    }
  }

  /** Nothing between two places: the first from the one is the first from the other. */
  lemma FirstGoesOn(text: string, i: nat, j: nat, i': nat, j': nat, r: Option<string>)
    requires forall c: nat, d: nat :: QuickAt(text, c, d) ==> (From(i, j, c, d) <==> From(i', j', c, d))
    requires IsFirst(text, i', j', r)
    ensures IsFirst(text, i, j, r)
  {
    hide QuickAt;
    if r.Some? {
      var a: nat, b: nat :| FirstFrom(text, i', j', a, b) && IsAt(text, a, b, r.value);
      assert FirstFrom(text, i, j, a, b);
    }
  }

  ghost predicate First(text: string, a: nat, b: nat) {
    QuickAt(text, a, b) && forall c: nat, d: nat :: QuickAt(text, c, d) ==> From(a, b, c, d)
  }

  ghost predicate HasAddress(text: string) {
    exists i: nat, j: nat :: QuickAt(text, i, j)
  }

  lemma AddressHasFirst(text: string) returns (a: nat, b: nat)
    requires Address(text).Some?
    ensures First(text, a, b) && IsAt(text, a, b, Address(text).value)
  {
    AddressExactly(text, 0, 0);
    hide QuickAt, AddressFrom;
    a, b :| FirstFrom(text, 0, 0, a, b) && IsAt(text, a, b, Address(text).value);
  }

  lemma AddressFound(text: string)
    ensures Address(text).Some? <==> HasAddress(text)
  {
    AddressExactly(text, 0, 0);
    hide QuickAt, AddressFrom;
    if HasAddress(text) {
      var c: nat, d: nat :| QuickAt(text, c, d);
      assert From(0, 0, c, d);
    }
  }

  lemma AddressOfFirst(text: string, a: nat, b: nat)
    requires First(text, a, b)
    ensures a + 2 < b <= |text| && Address(text) == Some(text[a + 1..b - 1])
  {
    QuickIsLong(text, a, b);
    AddressFound(text);
    hide QuickAt, Address;
    var c, d := AddressHasFirst(text);
    assert From(a, b, c, d) && From(c, d, a, b);
  }

  // --- Which addresses are found ------------------------------------------------------------------

  /** Blanks included, no longer than what is kept and one character. */
  predicate IsNear(i: nat, j: nat) {
    j - i <= KEEP + 1
  }

  /** Some address of `text` is. */
  ghost predicate Near(text: string) {
    exists i: nat, j: nat :: QuickAt(text, i, j) && IsNear(i, j)
  }

  /** Its first is. */
  ghost predicate FirstNear(text: string) {
    exists a: nat, b: nat :: First(text, a, b) && IsNear(a, b)
  }

  ghost predicate IsOneOf(text: string, address: string) {
    exists i: nat, j: nat :: IsAt(text, i, j, address)
  }

  /** What is known of a quick tunnel's address once `text` was written, however it was cut. */
  ghost predicate AddressFits(address: Option<string>, text: string) {
    && (address.Some? ==> IsOneOf(text, address.value))
    && (Near(text) ==> address.Some?)
    && (FirstNear(text) ==> address == Address(text))
  }

  lemma QuickBlanks(s: string)
    requires IsQuick(s)
    ensures |s| > 2 && IsBlank(s[0]) && IsBlank(s[|s| - 1]) && forall k :: 0 < k < |s| - 1 ==> !IsBlank(s[k])
  {
    var n := |s| - 1;
    var host := s[1 + |SCHEME|..n - |DOMAIN|];
    NoBlanks(host);
    NoBlanksInEnds();
    hide IsBlank, IsHost;
    forall k | 0 < k < n ensures !IsBlank(s[k]) {
      if k < 1 + |SCHEME| {
        assert s[k] == s[1..1 + |SCHEME|][k - 1];
      } else if k < n - |DOMAIN| {
        assert s[k] == host[k - 1 - |SCHEME|];
      } else {
        assert s[k] == s[n - |DOMAIN|..n][k - (n - |DOMAIN|)];
      }
    }
  }

  /** Two addresses share one blank at most. */
  lemma AddressesApart(text: string, i: nat, j: nat, c: nat, d: nat)
    requires QuickAt(text, i, j) && QuickAt(text, c, d)
    ensures i < c ==> j - 1 <= c
  {
    NoBlankInside(text, i, j);
    hide QuickAt, IsBlank;
    QuickIsLong(text, c, d);
  }

  lemma NoBlankInside(text: string, i: nat, j: nat)
    requires QuickAt(text, i, j)
    ensures j <= |text| && forall k :: i < k < j - 1 ==> !IsBlank(text[k])
  {
    QuickBlanks(text[i..j]);
    hide IsQuick, IsBlank;
    assert forall k :: i < k < j - 1 ==> text[k] == text[i..j][k - i];
  }

  /** Where what is kept of `before`, and the chunk, begins in all of it. */
  function Cut(before: string): nat {
    |before| - |Last(before)|
  }

  lemma KeptIsTail(before: string, chunk: string)
    ensures Cut(before) <= |before| && Last(before) + chunk == (before + chunk)[Cut(before)..]
    ensures Cut(before) == Max(0, |before| - KEEP)
  {
  }

  lemma QuickInTail(text: string, cut: nat, i: nat, j: nat)
    requires cut <= |text|
    ensures QuickAt(text[cut..], i, j) <==> QuickAt(text, cut + i, cut + j)
    ensures i < j <= |text| - cut ==> text[cut..][i..j] == text[cut + i..cut + j]
  {
    hide IsQuick;
    if i <= j <= |text| - cut {
      assert text[cut..][i..j] == text[cut + i..cut + j];
    }
  }

  lemma QuickBefore(before: string, chunk: string, i: nat, j: nat)
    requires j <= |before|
    ensures QuickAt(before, i, j) <==> QuickAt(before + chunk, i, j)
    ensures i < j ==> before[i..j] == (before + chunk)[i..j]
  {
    hide IsQuick;
    if i <= j {
      assert before[i..j] == (before + chunk)[i..j];
    }
  }

  lemma AtInTail(text: string, cut: nat, i: nat, j: nat, address: string)
    requires cut <= |text|
    ensures IsAt(text[cut..], i, j, address) <==> IsAt(text, cut + i, cut + j, address)
  {
    QuickInTail(text, cut, i, j);
    hide QuickAt;
    if i + 2 < j <= |text| - cut {
      assert text[cut..][i + 1..j - 1] == text[cut + i + 1..cut + j - 1];
    }
  }

  lemma AtBefore(before: string, chunk: string, i: nat, j: nat, address: string)
    requires j <= |before|
    ensures IsAt(before, i, j, address) <==> IsAt(before + chunk, i, j, address)
  {
    QuickBefore(before, chunk, i, j);
    hide QuickAt;
    if i + 2 < j {
      assert before[i + 1..j - 1] == (before + chunk)[i + 1..j - 1];
    }
  }

  /** What is found in what is kept and the chunk is an address of all of it. */
  lemma FoundIsOneOf(before: string, chunk: string) returns (a: nat, b: nat)
    requires Address(Last(before) + chunk).Some?
    ensures Cut(before) <= a && IsAt(before + chunk, a, b, Address(Last(before) + chunk).value)
  {
    var kept := Last(before) + chunk;
    hide QuickAt, Address;
    var i, j := AddressHasFirst(kept);
    KeptIsTail(before, chunk);
    AtInTail(before + chunk, Cut(before), i, j, Address(kept).value);
    a, b := Cut(before) + i, Cut(before) + j;
  }

  lemma StillOneOf(before: string, chunk: string, address: string)
    requires IsOneOf(before, address)
    ensures IsOneOf(before + chunk, address)
  {
    hide QuickAt;
    var i: nat, j: nat :| IsAt(before, i, j, address);
    AtBefore(before, chunk, i, j, address);
  }

  /** A near address that the chunk completes is in what is kept and the chunk. */
  lemma NearIsKept(before: string, chunk: string, i: nat, j: nat)
    requires QuickAt(before + chunk, i, j) && |before| < j && IsNear(i, j)
    ensures Cut(before) <= i && j >= i && QuickAt(Last(before) + chunk, i - Cut(before), j - Cut(before))
  {
    QuickIsLong(before + chunk, i, j);
    hide QuickAt;
    KeptIsTail(before, chunk);
    QuickInTail(before + chunk, Cut(before), i - Cut(before), j - Cut(before));
  }

  lemma NearIsKnown(before: string, chunk: string, address: Option<string>)
    requires AddressFits(address, before) && Near(before + chunk)
    ensures address.Some? || Address(Last(before) + chunk).Some?
  {
    hide QuickAt, Last, Address, Cut;
    var i: nat, j: nat :| QuickAt(before + chunk, i, j) && IsNear(i, j);
    if j <= |before| {
      QuickBefore(before, chunk, i, j);
    } else {
      NearIsKept(before, chunk, i, j);
      AddressFound(Last(before) + chunk);
    }
  }

  /** The first address of the longer text: the shorter one's own, if it was there already. */
  lemma FirstStays(before: string, chunk: string, a: nat, b: nat)
    requires First(before + chunk, a, b) && b <= |before|
    ensures First(before, a, b) && Address(before) == Address(before + chunk)
  {
    var all := before + chunk;
    forall c: nat, d: nat ensures QuickAt(before, c, d) ==> From(a, b, c, d) {
      QuickIsLong(before, c, d);
      if d <= |before| {
        QuickBefore(before, chunk, c, d);
      }
    }
    QuickBefore(before, chunk, a, b);
    hide QuickAt, Address;
    AddressOfFirst(before, a, b);
    AddressOfFirst(all, a, b);
    assert before[a + 1..b - 1] == all[a + 1..b - 1];
  }

  /** Else nothing was known before. */
  lemma NoneBefore(before: string, chunk: string, a: nat, b: nat)
    requires First(before + chunk, a, b) && |before| < b
    ensures forall address :: !IsOneOf(before, address)
  {
    hide QuickAt;
    forall address ensures !IsOneOf(before, address) {
      if IsOneOf(before, address) {
        var i: nat, j: nat :| IsAt(before, i, j, address);
        QuickBefore(before, chunk, i, j);
        AddressesApart(before + chunk, a, b, i, j);
        assert false;
      }
    }
  }

  lemma FirstOfTail(text: string, cut: nat, a: nat, b: nat)
    requires First(text, a, b) && cut <= |text| && cut <= a && cut <= b
    ensures First(text[cut..], a - cut, b - cut)
  {
    hide QuickAt;
    forall c: nat, d: nat ensures QuickAt(text[cut..], c, d) ==> From(a - cut, b - cut, c, d) {
      QuickInTail(text, cut, c, d);
    }
    QuickInTail(text, cut, a - cut, b - cut);
  }

  /** And it is the first of what is kept and the chunk. */
  lemma FirstComes(before: string, chunk: string, a: nat, b: nat)
    requires First(before + chunk, a, b) && |before| < b && IsNear(a, b)
    ensures Address(Last(before) + chunk) == Address(before + chunk)
  {
    var all := before + chunk;
    hide QuickAt, Address, Last, Cut, From;
    NearIsKept(before, chunk, a, b);
    KeptIsTail(before, chunk);
    var cut := Cut(before);
    var kept := Last(before) + chunk;
    FirstOfTail(all, cut, a, b);
    AddressOfFirst(kept, a - cut, b - cut);
    AddressOfFirst(all, a, b);
    QuickInTail(all, cut, a - cut + 1, b - cut - 1);
  }

  /** One chunk more. */
  lemma AddressKeeps(address: Option<string>, before: string, chunk: string)
    requires AddressFits(address, before)
    ensures AddressFits(if address == None then Address(Last(before) + chunk) else address, before + chunk)
  {
    hide QuickAt, Address, Last;
    if address.Some? {
      StillOneOf(before, chunk, address.value);
    } else if Address(Last(before) + chunk).Some? {
      var i, j := FoundIsOneOf(before, chunk);
    }
    if Near(before + chunk) {
      NearIsKnown(before, chunk, address);
    }
    if FirstNear(before + chunk) {
      FirstIsKnown(address, before, chunk);
    }
  }

  lemma FirstIsKnown(address: Option<string>, before: string, chunk: string)
    requires AddressFits(address, before) && FirstNear(before + chunk)
    ensures (if address == None then Address(Last(before) + chunk) else address) == Address(before + chunk)
  {
    hide QuickAt, Address, Last;
    var a: nat, b: nat :| First(before + chunk, a, b) && IsNear(a, b);
    if b <= |before| {
      FirstStays(before, chunk, a, b);
      assert FirstNear(before) && Near(before);
    } else {
      NoneBefore(before, chunk, a, b);
      FirstComes(before, chunk, a, b);
    }
  }

  /** What `read` has found out agrees with all the output. */
  ghost predicate Agrees(named: Option<string>, s: Seen, text: string) {
    && s.recent == Last(text)
    && (s.registered <==> Contains(text, IsRegistered))
    && (if named.Some? then s.address == None else AddressFits(s.address, text))
  }

  lemma {:induction false} ReadAgrees(named: Option<string>, s: Seen, text: string, chunk: string)
    requires Agrees(named, s, text)
    ensures Agrees(named, Read(s, named, chunk), text + chunk)
  {
    LastOfLast(text, chunk);
    WindowFinds(text, chunk, IsRegistered);
    hide Contains, Short, Last, Address, AddressFits, NonEmpty, IsRegistered, IsQuick;
    if named == None {
      AddressKeeps(s.address, text, chunk);
    }
  }

  lemma NothingYet()
    ensures AddressFits(None, "") && !Contains("", IsRegistered)
  {
    forall i: nat, j: nat ensures !QuickAt("", i, j) {
      QuickIsLong("", i, j);
    }
    hide QuickAt;
  }

  /**
   However the output is cut into chunks, `registered` says whether all of it so far has the phrase;
   a quick tunnel's address is known if all of it has one that is near, is one of it when known, and
   is its first if that is near.
   */
  lemma {:induction false} AsTheWholeOutput(named: Option<string>, es: seq<Event>)
    ensures Agrees(named, Exec(named, es), Output(es))
  {
    hide Contains, Short, AddressFits;
    if es == [] {
      NothingYet();
    } else {
      var before := es[..|es| - 1];
      AsTheWholeOutput(named, before);
      match es[|es| - 1]
      case Ends(_) =>
        assert Output(before) + "" == Output(before);
      case Data(chunk) =>
        ReadAgrees(named, Exec(named, before), Output(before), chunk);
    }
  }

  /** The output cut into single characters. */
  function Singles(text: string): seq<Event> {
    if text == "" then [] else Singles(text[..|text| - 1]) + [Data([text[|text| - 1]])]
  }

  lemma {:induction false} SinglesAreText(text: string)
    ensures Output(Singles(text)) == text
  {
    if text != "" {
      hide Output;
      var n := |text| - 1;
      SinglesAreText(text[..n]);
      assert text == text[..n] + [text[n]];
    } else {
      assert Output([]) == "";
    }
  }

  /** So cut, nothing but a near address is ever in what is kept and the chunk. */
  lemma {:induction false} SinglesFindNear(text: string) returns (i: nat, j: nat)
    requires Exec(None, Singles(text)).address.Some?
    ensures IsAt(text, i, j, Exec(None, Singles(text)).address.value) && IsNear(i, j)
  {
    var n := |text| - 1;
    var before, last := text[..n], [text[n]];
    var es := Singles(text);
    assert es[..|es| - 1] == Singles(before);
    assert text == before + last;
    SinglesAreText(before);
    AsTheWholeOutput(None, Singles(before));
    var s := Exec(None, Singles(before));
    assert s.recent == Last(before);
    hide QuickAt, Address, AddressFits, Contains, Last;
    if s.address.Some? {
      i, j := SinglesFindNear(before);
      AtBefore(before, last, i, j, s.address.value);
    } else {
      i, j := FoundIsOneOf(before, last);
      KeptIsTail(before, last);
    }
  }

  /** A quick tunnel's address is known after these events. */
  predicate Known(es: seq<Event>) {
    Exec(None, es).address.Some?
  }

  /**
   Exactly which outputs give an address however they are cut: those with one that is, blanks
   included, no longer than what is kept and one character.
   */
  lemma FoundExactly(text: string)
    ensures (forall es | Output(es) == text :: Known(es)) <==> Near(text)
  {
    hide QuickAt, Address, Contains, Exec, Output;
    if Near(text) {
      forall es | Output(es) == text ensures Known(es) {
        AsTheWholeOutput(None, es);
      }
    }
    if forall es | Output(es) == text :: Known(es) {
      SinglesAreText(text);
      assert Known(Singles(text));
      var i, j := SinglesFindNear(text);
    }
  }

  /** And exactly which give their first address, as a search of the whole does. */
  lemma FirstExactly(text: string)
    ensures (forall es | Output(es) == text :: Exec(None, es).address == Address(text)) <==>
            (Address(text).Some? ==> |Address(text).value| + 2 <= KEEP + 1)
  {
    AddressFound(text);
    hide QuickAt, Address, Exec, Output, Contains, Last;
    if Address(text).Some? {
      var a, b := AddressHasFirst(text);
      if IsNear(a, b) {
        assert FirstNear(text);
      } else {
        SinglesAreText(text);
        if Exec(None, Singles(text)).address == Address(text) {
          var i, j := SinglesFindNear(text);
        }
      }
    }
    forall es | Output(es) == text && (Address(text).Some? ==> |Address(text).value| + 2 <= KEEP + 1)
      ensures Exec(None, es).address == Address(text)
    {
      AsTheWholeOutput(None, es);
    }
  }

  /** The promise settles once: whatever comes later, its outcome stays. */
  lemma {:induction false} SettlesOnce(named: Option<string>, es: seq<Event>, more: seq<Event>)
    requires Exec(named, es).settled.Some?
    ensures Exec(named, es + more).settled == Exec(named, es).settled
  {
    if more == [] {
      assert es + more == es;
    } else {
      var n := |more| - 1;
      SettlesOnce(named, es, more[..n]);
      assert (es + more)[..|es + more| - 1] == es + more[..n];
    }
  }

  /**
   It settles with an address at just the chunk by which all the output holds what is waited for, if
   nothing ended the wait before: the phrase, and for a quick tunnel an address that is found.
   */
  lemma UpExactly(named: Option<string>, es: seq<Event>, chunk: string)
    requires Exec(named, es).settled == None
    ensures var s := Exec(named, es + [Data(chunk)]);
            var text := Output(es + [Data(chunk)]);
            && (named.Some? ==> s.settled == if Contains(text, IsRegistered) then Some(Up(SCHEME + named.value))
              else None)
            && (named == None ==>
                  && s.settled == (if Contains(text, IsRegistered) && s.address.Some? then Some(Up(s.address.value))
                    else None)
                  && AddressFits(s.address, text))
  {
    var all := es + [Data(chunk)];
    assert all[..|all| - 1] == es;
    AsTheWholeOutput(named, all);
    hide Contains, AddressFits, Address, Last;
  }

  lemma QuickOf(host: string)
    requires IsHost(host)
    ensures var text := " " + SCHEME + host + (DOMAIN + " "); QuickAt(text, 0, |text|)
  {
    var all := " " + SCHEME + host + (DOMAIN + " ");
    assert all[0..|all|] == all;
    assert all[1..1 + |SCHEME|] == SCHEME && all[|all| - 1 - |DOMAIN|..|all| - 1] == DOMAIN;
    assert all[1 + |SCHEME|..|all| - 1 - |DOMAIN|] == host;
  }

  /** Blanks at its ends alone: the only address it can be is the whole. */
  lemma OnlyTheWhole(text: string, i: nat, j: nat)
    requires QuickAt(text, i, j) && forall k :: 0 < k < |text| - 1 ==> !IsBlank(text[k])
    ensures i == 0 && j == |text|
  {
    QuickBlanks(text[i..j]);
    hide IsQuick, IsBlank;
    assert text[i] == text[i..j][0] && text[j - 1] == text[i..j][j - i - 1];
  }

  /** An instance: any address longer than that, alone between blanks, is missed when cut into characters. */
  lemma LongAddressIsMissed(host: string)
    requires IsHost(host) && |host| + |SCHEME| + |DOMAIN| + 2 > KEEP + 1
    ensures var text := " " + SCHEME + host + (DOMAIN + " ");
            QuickAt(text, 0, |text|) && Output(Singles(text)) == text && Exec(None, Singles(text)).address == None
  {
    var text := " " + SCHEME + host + (DOMAIN + " ");
    QuickOf(host);
    BlanksAtEnds(host, text);
    hide Contains, IsHost, Address, Exec, Output, Last, IsBlank, QuickAt, Singles;
    SinglesAreText(text);
    if Exec(None, Singles(text)).address.Some? {
      var i, j := SinglesFindNear(text);
      OnlyTheWhole(text, i, j);
      assert false;
    }
  }

  lemma BlanksAtEnds(host: string, text: string)
    requires text == " " + SCHEME + host + (DOMAIN + " ") && IsHost(host)
    ensures forall k :: 0 < k < |text| - 1 ==> !IsBlank(text[k])
  {
    NoBlanks(host);
    NoBlanksInEnds();
    hide IsBlank, IsHost;
    forall k | 0 < k < |text| - 1 ensures !IsBlank(text[k]) {
      if k < 1 + |SCHEME| {
        assert text[k] == SCHEME[k - 1];
      } else if k < 1 + |SCHEME| + |host| {
        assert text[k] == host[k - 1 - |SCHEME|];
      } else {
        assert text[k] == DOMAIN[k - 1 - |SCHEME| - |host|];
      }
    }
  }

  lemma NoBlanksInEnds()
    ensures forall i :: 0 <= i < |SCHEME| ==> !IsBlank(SCHEME[i])
    ensures forall i :: 0 <= i < |DOMAIN| ==> !IsBlank(DOMAIN[i])
  {
  }

  lemma NoBlanks(host: string)
    requires IsHost(host)
    ensures forall i :: 0 <= i < |host| ==> !IsBlank(host[i])
  {
    forall i | 0 <= i < |host| ensures !IsBlank(host[i]) {
      assert InHost(host, i);
    }
  }
}
