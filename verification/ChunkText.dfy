/**
 The windows of a text that are embedded (ai/enrich/src/embed.ts, `chunkText` and `lastSpace`).
 Text is 16-bit code units, as JavaScript's is.
 */
module ChunkText {
  import opened Common
  import opened EvenSpread

  type Unit = u: int | 0 <= u < 0x1_0000
  type Text = seq<Unit>

  /** The most chunks a version keeps: with its summary, 64 vectors. */
  const MAX_CHUNKS: nat := 63

  datatype Chunk = Chunk(place: nat, text: Text)

  /** Refused settings: the three RangeErrors. */
  datatype Result = Chunks(chunks: seq<Chunk>) | BadSize | BadOverlap | BadMost

  predicate IsHigh(u: Unit) { 0xd800 <= u <= 0xdbff }

  predicate IsLow(u: Unit) { 0xdc00 <= u <= 0xdfff }

  /** What `\s` matches and `trim` removes. */
  predicate IsSpace(u: Unit) {
    9 <= u <= 13 || u == 0x20 || u == 0xa0 || u == 0x1680 || 0x2000 <= u <= 0x200a || u == 0x2028 || u == 0x2029
    || u == 0x202f || u == 0x205f || u == 0x3000 || u == 0xfeff
  }

  /** What is blank in a unit is blank in the character it is, if it is one by itself. */
  lemma SpacesAreBlanks(u: Unit)
    requires u < 0xD800 || u > 0xDFFF
    ensures IsSpace(u) <==> Common.IsBlank(u as char)
  {
  }

  predicate IsBlank(t: Text) {
    forall u :: u in t ==> IsSpace(u)
  }

  predicate Legal(size: int, overlap: int, most: int) {
    50 <= size <= 100_000 && 0 <= overlap && 2 * overlap < size && 1 <= most <= MAX_CHUNKS
  }

  /** `Math.floor(size * 0.8)` (in doubles it is the same, for every legal size). */
  function Fifths(size: nat): nat {
    size * 4 / 5
  }

  /** The last whitespace in text[from..end), or -1. */
  method LastSpace(text: Text, from: nat, end: nat) returns (at: int)
    requires end <= |text|
    ensures at == LastSpaceOf(text, from, end)
  {
    var i := end - 1;
    while i >= from
      invariant i < end && (i < from ==> from >= end || i == from - 1)
      invariant LastSpaceOf(text, from, end) == if i < from then -1 else LastSpaceOf(text, from, i + 1)
    {
      if IsSpace(text[i]) {
        return i;
      }
      i := i - 1;
    }
    return -1;
  }

  function LastSpaceOf(text: Text, from: nat, end: nat): (at: int)
    requires end <= |text|
    ensures at == -1 || from <= at < end
    ensures at >= 0 ==> IsSpace(text[at]) && (forall i :: at < i < end ==> !IsSpace(text[i]))
    ensures at == -1 ==> (forall i :: from <= i < end ==> !IsSpace(text[i]))
    decreases end
  {
    if end <= from then -1
    else if IsSpace(text[end - 1]) then end - 1
    else LastSpaceOf(text, from, end - 1)
  }

  /** How many windows start at `at` or later, `at` being where one may start. */
  function Windows(at: nat, len: nat, size: nat, step: nat): nat
    requires step > 0
    decreases len - at
  {
    if at >= len then 0 else if at + size >= len then 1 else 1 + Windows(at + step, len, size, step)
  }

  /** Where a window's chunk starts and ends. */
  datatype Span = Span(start: nat, end: nat)

  function StartOf(text: Text, at: nat): nat
    requires at < |text|
  {
    if IsLow(text[at]) then at + 1 else at
  }

  function SpanOf(text: Text, at: nat, size: nat): Span
    requires at < |text| && size >= 50
  {
    var start := StartOf(text, at);
    var most := Min(|text|, start + size);
    var space := if most < |text| then LastSpaceOf(text, start + Fifths(size), most) else -1;
    var end: nat := if space > start then space else most;
    Span(start, if IsHigh(text[end - 1]) then end - 1 else end)
  }

  /** The picked windows start inside the text. */
  ghost predicate InText(text: Text, step: nat, picked: seq<nat>) {
    forall i :: 0 <= i < |picked| ==> 0 <= picked[i] * step < |text|
  }

  /** The chunks of the first `k` picked windows, blank ones left out. */
  function ChunksOf(text: Text, size: nat, step: nat, picked: seq<nat>, k: nat): seq<Chunk>
    requires size >= 50 && k <= |picked| && InText(text, step, picked)
    decreases k
  {
    if k == 0 then [] else
    var before := ChunksOf(text, size, step, picked, k - 1);
    NatProduct(picked[k - 1], step);
    var span := SpanOf(text, picked[k - 1] * step, size);
    SpanFits(text, picked[k - 1] * step, size);
    var chunk := text[span.start..span.end];
    if IsBlank(chunk) then before else before + [Chunk(|before|, chunk)]
  }

  /** A span is in the text, and not longer than the window. */
  lemma SpanFits(text: Text, at: nat, size: nat)
    requires at < |text| && size >= 50
    ensures var s := SpanOf(text, at, size); at <= s.start <= s.end <= |text| && s.end - s.start <= size
  {
  }

  /** Window `i` is the last exactly when it reaches the end of the text. */
  lemma {:induction false} LastWindow(at: nat, len: nat, size: nat, step: nat, i: nat)
    requires step > 0 && size >= step && at < len
    ensures i * step >= 0
    ensures i + 1 < Windows(at, len, size, step) <==> at + i * step + size < len
    decreases len - at
  {
    NatProduct(i, step);
    if at + size < len && i > 0 {
      LastWindow(at + step, len, size, step, i - 1);
      assert i * step == (i - 1) * step + step;
    }
  }

  /** So every window starts inside the text. */
  lemma WindowStarts(len: nat, size: nat, step: nat, i: nat)
    requires step > 0 && size >= step && i < Windows(0, len, size, step)
    ensures 0 <= i * step < len
  {
    if i > 0 {
      LastWindow(0, len, size, step, i - 1);
      assert i * step == (i - 1) * step + step;
    }
  }

  lemma PicksInText(text: Text, size: nat, step: nat, most: nat)
    requires 0 < step <= size && most > 0
    ensures InText(text, step, Picked(Windows(0, |text|, size, step), most))
  {
    var n := Windows(0, |text|, size, step);
    var p := Picked(n, most);
    PickedWell(n, most);
    forall i | 0 <= i < |p| ensures 0 <= p[i] * step < |text| {
      WindowStarts(|text|, size, step, p[i]);
    }
  }

  function Kept(text: Text, size: nat, step: nat, most: nat): seq<Chunk>
    requires 0 < step <= size && size >= 50 && most > 0
  {
    PicksInText(text, size, step, most);
    var p := Picked(Windows(0, |text|, size, step), most);
    ChunksOf(text, size, step, p, |p|)
  }

  /** What `chunkText` gives. */
  function ChunkTextOf(text: Text, size: int, overlap: int, most: int): Result {
    if !(50 <= size <= 100_000) then BadSize
    else if overlap < 0 || 2 * overlap >= size then BadOverlap
    else if most < 1 || most > MAX_CHUNKS then BadMost
    else Chunks(Kept(text, size, size - overlap, most))
  }

  method Cut(text: Text, size: int, overlap: int, most: int) returns (result: Result)
    ensures result == ChunkTextOf(text, size, overlap, most)
  {
    if size < 50 || size > 100_000 {
      return BadSize;
    }
    if overlap < 0 || 2 * overlap >= size {
      return BadOverlap;
    }
    if most < 1 || most > MAX_CHUNKS {
      return BadMost;
    }
    var out := CutAll(text, size, size - overlap, most);
    return Chunks(out);
  }

  method CutAll(text: Text, size: nat, step: nat, most: nat) returns (out: seq<Chunk>)
    requires 0 < step <= size && size >= 50 && most > 0
    ensures out == Kept(text, size, step, most)
  {
    hide SpanOf, Picked, Windows, IsBlank;
    var starts := Starts(|text|, size, step);
    PicksInText(text, size, step, most);
    PickedWell(|starts|, most);
    var picked := Pick(|starts|, most);
    out := [];
    var k := 0;
    while k < |picked|
      invariant k <= |picked|
      invariant out == ChunksOf(text, size, step, picked, k)
    {
      var at := starts[picked[k]];
      SpanFits(text, at, size);
      var span := CutWindow(text, at, size);
      var chunk := text[span.start..span.end];
      if !IsBlank(chunk) {
        out := out + [Chunk(|out|, chunk)];
      }
      k := k + 1;
    }
  }

  /** One turn of the loop over the picked windows. */
  method CutWindow(text: Text, at: nat, size: nat) returns (span: Span)
    requires at < |text| && size >= 50
    ensures span == SpanOf(text, at, size)
  {
    var start := at;
    if IsLow(text[start]) {
      start := start + 1;
    }
    var end := Min(|text|, start + size);
    if end < |text| {
      var space := LastSpace(text, start + Fifths(size), end);
      if space > start {
        end := space;
      }
    }
    if IsHigh(text[end - 1]) {
      end := end - 1;
    }
    span := Span(start, end);
  }

  method Starts(len: nat, size: nat, step: nat) returns (starts: seq<nat>)
    requires 0 < step <= size
    ensures |starts| == Windows(0, len, size, step)
    ensures forall i :: 0 <= i < |starts| ==> starts[i] == i * step
  {
    starts := [];
    var at := 0;
    while at < len
      invariant at == |starts| * step
      invariant forall i :: 0 <= i < |starts| ==> starts[i] == i * step
      invariant |starts| + Windows(at, len, size, step) == Windows(0, len, size, step)
      decreases len - at
    {
      starts := starts + [at];
      if at + size >= len {
        break;
      }
      assert |starts| * step == (|starts| - 1) * step + step;
      at := at + step;
    }
  }

  // --- What the chunks are ----------------------------------------------------------------------

  /** Between the two halves of a surrogate pair. */
  predicate SplitsPair(text: Text, at: nat) {
    0 < at < |text| && IsHigh(text[at - 1]) && IsLow(text[at])
  }

  /** The chunk is a stretch of the text, no longer than a window, cutting no surrogate pair in two. */
  ghost predicate ChunkFits(text: Text, size: nat, c: Chunk) {
    && !IsBlank(c.text) && |c.text| <= size
    && exists at: nat :: StretchAt(text, c.text, at)
  }

  ghost predicate StretchAt(text: Text, t: Text, at: nat) {
    && at + |t| <= |text| && text[at..at + |t|] == t
    && !SplitsPair(text, at) && !SplitsPair(text, at + |t|)
  }

  lemma SpanStretch(text: Text, at: nat, size: nat)
    requires at < |text| && size >= 50
    ensures var s := SpanOf(text, at, size);
            && at <= s.start <= s.end <= |text| && s.end - s.start <= size
            && StretchAt(text, text[s.start..s.end], s.start)
  {
    SpanFits(text, at, size);
    var s := SpanOf(text, at, size);
    assert s.start + |text[s.start..s.end]| == s.end;
  }

  lemma {:induction false} EachChunkFits(text: Text, size: nat, step: nat, picked: seq<nat>, k: nat)
    requires size >= 50 && k <= |picked| && InText(text, step, picked)
    ensures var out := ChunksOf(text, size, step, picked, k);
            && |out| <= k
            && forall j :: 0 <= j < |out| ==> out[j].place == j && ChunkFits(text, size, out[j])
  {
    hide SpanOf, StretchAt, IsBlank;
    if k > 0 {
      EachChunkFits(text, size, step, picked, k - 1);
      SpanStretch(text, picked[k - 1] * step, size);
    }
  }

  /**
   For every text and legal settings: at most `most` chunks, numbered in order, none blank, each a
   stretch of the text of at most `size` units that starts and ends outside every surrogate pair.
   Anything else is refused.
   */
  lemma EveryChunk(text: Text, size: int, overlap: int, most: int)
    ensures ChunkTextOf(text, size, overlap, most).Chunks? <==> Legal(size, overlap, most)
    ensures Legal(size, overlap, most) ==>
              var out := ChunkTextOf(text, size, overlap, most).chunks;
              && |out| <= most
              && forall j :: 0 <= j < |out| ==> out[j].place == j && ChunkFits(text, size, out[j])
  {
    if Legal(size, overlap, most) {
      var step := size - overlap;
      PicksInText(text, size, step, most);
      var p := Picked(Windows(0, |text|, size, step), most);
      PickedWell(Windows(0, |text|, size, step), most);
      EachChunkFits(text, size, step, p, |p|);
    }
  }

  // --- What is left out -------------------------------------------------------------------------

  function Count(text: Text, size: nat, step: nat): nat
    requires 0 < step <= size
  {
    Windows(0, |text|, size, step)
  }

  /** Window `i`'s span. */
  function SpanAt(text: Text, size: nat, step: nat, i: nat): Span
    requires size >= 50 && 0 < step <= size && i < Count(text, size, step)
  {
    WindowStarts(|text|, size, step, i);
    SpanOf(text, i * step, size)
  }

  /** Between two windows in a row at most so much of any text is in neither. */
  lemma GapBound(text: Text, size: nat, overlap: nat, i: nat)
    requires 50 <= size && 2 * overlap < size && i + 1 < Count(text, size, size - overlap)
    ensures var step := size - overlap;
            SpanAt(text, size, step, i + 1).start - SpanAt(text, size, step, i).end
              <= Max(0, size - Fifths(size) - overlap + 2)
  {
    var step := size - overlap;
    WindowStarts(|text|, size, step, i);
    WindowStarts(|text|, size, step, i + 1);
    assert (i + 1) * step == i * step + step;
  }

  /** A half of a surrogate pair has its other half. */
  predicate PairFits(text: Text, i: nat)
    requires i < |text|
  {
    && (IsHigh(text[i]) ==> i + 1 < |text| && IsLow(text[i + 1]))
    && (IsLow(text[i]) ==> i > 0 && IsHigh(text[i - 1]))
  }

  ghost predicate WellFormed(text: Text) {
    forall i: nat :: i < |text| ==> PairFits(text, i)
  }

  ghost predicate InSpan(text: Text, size: nat, step: nat, u: nat, i: nat)
    requires size >= 50 && 0 < step <= size
  {
    i < Count(text, size, step) && SpanAt(text, size, step, i).start <= u < SpanAt(text, size, step, i).end
  }

  /** A non-blank unit of the text is in the chunk of one of the windows. */
  ghost predicate Found(text: Text, size: nat, step: nat, u: nat)
    requires size >= 50 && 0 < step <= size
  {
    exists i: nat :: InSpan(text, size, step, u, i)
  }

  /** The settings lose no non-blank character of any well-formed text all of whose windows are kept. */
  ghost predicate Lossless(size: int, overlap: int, most: int)
    requires Legal(size, overlap, most)
  {
    forall text: Text, u: nat ::
      WellFormed(text) && Count(text, size, size - overlap) <= most && u < |text| && !IsSpace(text[u]) ==>
        Found(text, size, size - overlap, u)
  }

  /** Such a window's chunk is among the chunks. */
  lemma {:induction false} WindowIsKept(text: Text, size: nat, step: nat, picked: seq<nat>, k: nat, j: nat)
    requires size >= 50 && k <= |picked| && InText(text, step, picked) && j < k
    requires 0 <= picked[j] * step < |text|
    requires var s := SpanOf(text, picked[j] * step, size);
             s.start <= s.end <= |text| && !IsBlank(text[s.start..s.end])
    ensures var s := SpanOf(text, picked[j] * step, size);
            exists c :: c in ChunksOf(text, size, step, picked, k) && c.text == text[s.start..s.end]
  {
    hide SpanOf, IsBlank;
    var s := SpanOf(text, picked[j] * step, size);
    if j == k - 1 {
      var before := ChunksOf(text, size, step, picked, k - 1);
      var c := Chunk(|before|, text[s.start..s.end]);
      assert ChunksOf(text, size, step, picked, k) == before + [c];
      assert c in ChunksOf(text, size, step, picked, k);
    } else {
      WindowIsKept(text, size, step, picked, k - 1, j);
    }
  }

  /** Where a window of a well-formed text ends: at the text's end, at a space, or a unit short of full. */
  lemma SpanEnds(text: Text, at: nat, size: nat)
    requires at < |text| && size >= 50 && WellFormed(text)
    ensures var s := SpanOf(text, at, size);
            && s.start == StartOf(text, at)
            && (s.end == |text|
                || (s.end < |text| && IsSpace(text[s.end]) && s.end >= s.start + Fifths(size))
                || (s.end < |text| && s.end >= s.start + size - 1))
    ensures at + size >= |text| ==> SpanOf(text, at, size).end == |text|
  {
    assert PairFits(text, |text| - 1);
    var start := StartOf(text, at);
    var most := Min(|text|, start + size);
    var space := if most < |text| then LastSpaceOf(text, start + Fifths(size), most) else -1;
    if space > start {
      assert PairFits(text, space - 1);
    }
  }

  /**
   A unit of a well-formed text that is after window `i`'s start and before the next one's is blank
   or in window `i`, once the overlap reaches all but one unit of the last fifth.
   */
  lemma InThisOne(text: Text, size: nat, overlap: nat, u: nat, i: nat)
    requires 50 <= size && 2 * overlap < size && overlap + Fifths(size) + 1 >= size && WellFormed(text)
    requires i < Count(text, size, size - overlap) && u < |text| && !IsSpace(text[u])
    requires SpanAt(text, size, size - overlap, i).start <= u
    requires i + 1 < Count(text, size, size - overlap) ==> u < SpanAt(text, size, size - overlap, i + 1).start
    ensures InSpan(text, size, size - overlap, u, i)
  {
    var step := size - overlap;
    WindowStarts(|text|, size, step, i);
    LastWindow(0, |text|, size, step, i);
    var at := i * step;
    NextPlace(i, step);
    hide SpanOf, WellFormed, Windows, Fifths;
    if i + 1 < Count(text, size, step) {
      WindowStarts(|text|, size, step, i + 1);
      InThisStretch(text, size, overlap, u, at);
    } else {
      EndsTheText(text, size, at);
    }
  }

  lemma NextPlace(i: nat, step: nat)
    ensures 0 <= i * step && (i + 1) * step == i * step + step
  {
    NatProduct(i, step);
  }

  lemma EndsTheText(text: Text, size: nat, at: nat)
    requires at < |text| && size >= 50 && WellFormed(text) && at + size >= |text|
    ensures SpanOf(text, at, size).end == |text|
  {
    SpanEnds(text, at, size);
  }

  lemma InThisStretch(text: Text, size: nat, overlap: nat, u: nat, at: nat)
    requires 50 <= size && 2 * overlap < size && overlap + Fifths(size) + 1 >= size && WellFormed(text)
    requires at + size - overlap < |text| && u < |text| && !IsSpace(text[u])
    requires SpanOf(text, at, size).start <= u < SpanOf(text, at + size - overlap, size).start
    ensures u < SpanOf(text, at, size).end
  {
    SpanEnds(text, at, size);
    assert SpanOf(text, at + size - overlap, size).start == StartOf(text, at + size - overlap);
    hide SpanOf;
    assert PairFits(text, u);
    assert u > 0 ==> PairFits(text, u - 1);
  }

  lemma {:induction false} SomeWindow(text: Text, size: nat, overlap: nat, u: nat, i: nat)
    requires 50 <= size && 2 * overlap < size && overlap + Fifths(size) + 1 >= size && WellFormed(text)
    requires i < Count(text, size, size - overlap) && u < |text| && !IsSpace(text[u])
    requires SpanAt(text, size, size - overlap, i).start <= u
    ensures Found(text, size, size - overlap, u)
    decreases Count(text, size, size - overlap) - i
  {
    if i + 1 < Count(text, size, size - overlap) && SpanAt(text, size, size - overlap, i + 1).start <= u {
      SomeWindow(text, size, overlap, u, i + 1);
    } else {
      InThisOne(text, size, overlap, u, i);
    }
  }

  lemma InItsChunk(text: Text, size: nat, step: nat, u: nat, i: nat)
    requires size >= 50 && 0 < step <= size && InSpan(text, size, step, u, i) && u < |text| && !IsSpace(text[u])
    ensures 0 <= i * step < |text|
    ensures var s := SpanOf(text, i * step, size);
            && s.start <= u < s.end <= |text| && StretchAt(text, text[s.start..s.end], s.start)
            && !IsBlank(text[s.start..s.end])
  {
    WindowStarts(|text|, size, step, i);
    SpanStretch(text, i * step, size);
    hide SpanOf, StretchAt;
    var s := SpanOf(text, i * step, size);
    assert text[s.start..s.end][u - s.start] == text[u];
  }

  lemma IsFound(text: Text, size: nat, overlap: nat, u: nat)
    requires 50 <= size && 2 * overlap < size && overlap + Fifths(size) + 1 >= size && WellFormed(text)
    requires u < |text| && !IsSpace(text[u])
    ensures Found(text, size, size - overlap, u)
  {
    assert PairFits(text, 0);
    SomeWindow(text, size, overlap, u, 0);
  }

  /** With such an overlap, and no window dropped, each non-blank unit of a well-formed text is in a chunk. */
  lemma NothingLost(text: Text, size: int, overlap: int, most: int, u: nat)
    requires Legal(size, overlap, most) && overlap + Fifths(size) + 1 >= size
    requires WellFormed(text) && Count(text, size, size - overlap) <= most && u < |text| && !IsSpace(text[u])
    ensures exists c, at: nat :: c in ChunkTextOf(text, size, overlap, most).chunks
              && StretchAt(text, c.text, at) && at <= u < at + |c.text|
  {
    hide SpanOf, WellFormed, StretchAt, IsBlank, IsSpace, InSpan, ChunksOf, Windows;
    var step := size - overlap;
    IsFound(text, size, overlap, u);
    var i: nat :| InSpan(text, size, step, u, i);
    InItsChunk(text, size, step, u, i);
    IsOneOfThem(text, size, step, u, i);
    var p := Picked(Count(text, size, step), most);
    PicksInText(text, size, step, most);
    WindowIsKept(text, size, step, p, |p|, i);
    var s := SpanOf(text, i * step, size);
    var c :| c in ChunksOf(text, size, step, p, |p|) && c.text == text[s.start..s.end];
    assert StretchAt(text, c.text, s.start);
  }

  lemma IsOneOfThem(text: Text, size: nat, step: nat, u: nat, i: nat)
    requires size >= 50 && 0 < step <= size && InSpan(text, size, step, u, i)
    ensures i < Count(text, size, step)
  {
  }

  const LETTER: Unit := 0x61
  const SPACE: Unit := 0x20

  /** A word as long as the window's first four fifths, a space, and a word as long as a window. */
  function LosingText(size: nat): Text {
    seq(Fifths(size) + 1 + size, i => if i == Fifths(size) then SPACE else LETTER)
  }

  /** The first window of that text ends at the space. */
  lemma FirstSpan(size: nat)
    requires 50 <= size
    ensures SpanOf(LosingText(size), 0, size) == Span(0, Fifths(size))
  {
    var text := LosingText(size);
    var f := Fifths(size);
    var at := LastSpaceOf(text, f, size);
    assert IsSpace(text[f]);
    assert forall k :: f < k < size ==> text[k] == LETTER;
    assert at == f;
    assert text[f - 1] == LETTER;
  }

  lemma LosingTextFits(size: nat)
    requires 50 <= size
    ensures var text := LosingText(size); var u := Fifths(size) + 1;
            WellFormed(text) && |text| == u + size && u < |text| && !IsSpace(text[u])
  {
    var text := LosingText(size);
    forall i: nat | i < |text| ensures PairFits(text, i) {
    }
  }

  lemma TwoWindows(len: nat, size: nat, step: nat)
    requires 0 < step <= size < len <= step + size
    ensures Windows(0, len, size, step) == 2
  {
    assert Windows(0, len, size, step) == 1 + Windows(step, len, size, step);
  }

  /** The second word's first letter is in no window when the next one starts after it. */
  lemma Loses(size: nat, overlap: nat)
    requires 50 <= size && 2 * overlap < size && overlap + Fifths(size) + 1 < size
    ensures var text := LosingText(size); var u := Fifths(size) + 1;
            && WellFormed(text) && Count(text, size, size - overlap) == 2 && u < |text|
            && !IsSpace(text[u]) && !Found(text, size, size - overlap, u)
  {
    LosingTextFits(size);
    FirstSpan(size);
    hide SpanOf, WellFormed, LosingText, Windows, IsSpace, LastSpaceOf;
    var text := LosingText(size);
    var step := size - overlap;
    var u := Fifths(size) + 1;
    TwoWindows(|text|, size, step);
    SpanFits(text, step, size);
    NextPlace(0, step);
    NotInSpan(text, size, step, u, 0, 0);
    NotInSpan(text, size, step, u, 1, step);
    hide InSpan;
    assert forall i: nat :: InSpan(text, size, step, u, i) ==> i == 0 || i == 1 by {
      OnlyTwo(text, size, step, u);
    }
  }

  lemma NotInSpan(text: Text, size: nat, step: nat, u: nat, i: nat, at: nat)
    requires size >= 50 && 0 < step <= size && at == i * step < |text| && i < Count(text, size, step)
    requires !(SpanOf(text, at, size).start <= u < SpanOf(text, at, size).end)
    ensures !InSpan(text, size, step, u, i)
  {
    hide SpanOf, Windows;
  }

  lemma OnlyTwo(text: Text, size: nat, step: nat, u: nat)
    requires size >= 50 && 0 < step <= size && Count(text, size, step) == 2
    ensures forall i: nat :: InSpan(text, size, step, u, i) ==> i == 0 || i == 1
  {
    hide SpanOf, Windows;
  }

  /** With room for one window only, a text whose windows are all kept has but one, and that is all of it. */
  lemma OneWindowIsAll(text: Text, size: nat, step: nat, u: nat)
    requires size >= 50 && 0 < step <= size && WellFormed(text) && Count(text, size, step) <= 1 && u < |text|
    ensures Found(text, size, step, u)
  {
    LastWindow(0, |text|, size, step, 0);
    SpanEnds(text, 0, size);
    assert PairFits(text, 0);
    assert 0 * step == 0;
    hide SpanOf, WellFormed;
    assert InSpan(text, size, step, u, 0);
  }

  /**
   Exactly which settings lose nothing: one chunk at most, or an overlap of at least the window's last
   fifth less one unit. (The defaults, 1,200 with 200, are not among them.)
   */
  lemma LosslessExactly(size: int, overlap: int, most: int)
    requires Legal(size, overlap, most)
    ensures Lossless(size, overlap, most) <==> most == 1 || overlap + Fifths(size) + 1 >= size
  {
    if most == 1 || overlap + Fifths(size) + 1 >= size {
      forall text: Text, u: nat
        | WellFormed(text) && Count(text, size, size - overlap) <= most && u < |text| && !IsSpace(text[u])
        ensures Found(text, size, size - overlap, u)
      {
        if most == 1 {
          OneWindowIsAll(text, size, size - overlap, u);
        } else {
          IsFound(text, size, overlap, u);
        }
      }
    } else {
      Loses(size, overlap);
    }
  }

  /** Half a surrogate pair before the space that ends a window, and the other half where the next starts. */
  function GapText(size: nat, step: nat): Text {
    seq(step + size, i =>
      if i == Fifths(size) - 1 then 0xd800
      else if i == Fifths(size) then SPACE
      else if i == step then 0xdc00
      else LETTER)
  }

  /** The bound on the gap is reached, by text that is not well formed, whenever a gap can be. */
  lemma GapIsReached(size: nat, overlap: nat)
    requires 50 <= size && 2 * overlap < size && overlap + Fifths(size) < size
    ensures var text := GapText(size, size - overlap); var step := size - overlap;
            && Count(text, size, step) == 2
            && SpanAt(text, size, step, 1).start - SpanAt(text, size, step, 0).end == size - Fifths(size) - overlap + 2
  {
    var step := size - overlap;
    TwoWindows(step + size, size, step);
    GapSpans(size, step);
    NextPlace(0, step);
    hide SpanOf, Windows, GapText, Fifths;
  }

  lemma GapSpans(size: nat, step: nat)
    requires 50 <= size && Fifths(size) < step <= size
    ensures var text := GapText(size, step);
            SpanOf(text, 0, size) == Span(0, Fifths(size) - 1) && SpanOf(text, step, size).start == step + 1
  {
    var text := GapText(size, step);
    var f := Fifths(size);
    var at := LastSpaceOf(text, f, size);
    assert IsSpace(text[f]);
    assert forall k :: f < k < size ==> text[k] == LETTER || text[k] == 0xdc00;
    assert at == f;
    assert text[f - 1] == 0xd800 && text[step] == 0xdc00 && text[0] == LETTER;
  }

  lemma DefaultsLose()
    ensures !Lossless(1_200, 200, 16)
  {
    LosslessExactly(1_200, 200, 16);
  }
}
