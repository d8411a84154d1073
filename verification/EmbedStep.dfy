/**
 The embed step's run (ai/enrich/src/embed.ts, `embedStep().run` and `ask`): it embeds only what
 changed, keeps the vectors of the rest, and settles its reservation on every way out.
 */
module EmbedStep {
  import opened Common
  import opened ModelErrors
  import EmbedAnswer
  import Ledger = TokenLedger

  const MAX_EMBEDDINGS_PER_VERSION: nat := 64
  const MAX_EMBEDDING_DIMENSIONS: nat := 16_000

  type Hash = string
  type Vector = seq<real>

  datatype Part = Summary | Chunk
  datatype Key = Key(part: Part, place: nat)
  datatype Text = Text(key: Key, text: string)
  datatype Wanted = Wanted(key: Key, text: string, hash: Hash)
  datatype Stored = Stored(hash: Hash, vec: Vector)
  datatype Item = Item(key: Key, stored: Stored)

  /** A version's rows under one model. */
  type Rows = map<Key, Stored>

  /** The summary, when there is one, and the chunks in order. */
  function Texts(summary: Option<string>, chunks: seq<string>): seq<Text> {
    (if summary.Some? then [Text(Key(Summary, 0), summary.value)] else [])
    + seq(|chunks|, i requires 0 <= i < |chunks| => Text(Key(Chunk, i), chunks[i]))
  }

  /** Each cut to the provider's length, with its hash. */
  function WantedOf(texts: seq<Text>, maxChars: nat, hash: string -> Hash): seq<Wanted> {
    seq(|texts|, i requires 0 <= i < |texts| =>
      var cut := texts[i].text[..Min(maxChars, |texts[i].text|)];
      Wanted(texts[i].key, cut, hash(cut)))
  }

  predicate Has(have: Rows, w: Wanted) {
    w.key in have && have[w.key].hash == w.hash
  }

  function Missing(have: Rows, wanted: seq<Wanted>): seq<Wanted> {
    if wanted == [] then []
    else (if Has(have, wanted[0]) then [] else [wanted[0]]) + Missing(have, wanted[1..])
  }

  /** `new Map(missing.map(…))`: each missing key with the vector at its place. */
  function Vectors(missing: seq<Wanted>, answers: seq<Vector>): map<Key, Vector>
    requires |missing| == |answers|
  {
    if missing == [] then map[]
    else var n := |missing| - 1; Vectors(missing[..n], answers[..n])[missing[n].key := answers[n]]
  }

  /** The items of a run that asked for the missing texts: a new vector where there is one. */
  function Merged(have: Rows, wanted: seq<Wanted>, vectors: map<Key, Vector>): seq<Item>
    requires forall i :: 0 <= i < |wanted| ==> wanted[i].key in vectors || wanted[i].key in have
  {
    seq(|wanted|, i requires 0 <= i < |wanted| =>
      Item(wanted[i].key,
           Stored(wanted[i].hash,
                  if wanted[i].key in vectors then vectors[wanted[i].key] else have[wanted[i].key].vec)))
  }

  predicate OneSize(items: seq<Item>) {
    forall i :: 0 <= i < |items| ==> |items[i].stored.vec| == |items[0].stored.vec|
  }

  predicate IsZero(v: Vector) {
    forall i :: 0 <= i < |v| ==> v[i] == 0.0
  }

  /** `ask` after the call: the right number of vectors, of one size, none zero. */
  predicate Usable(vectors: seq<Vector>, n: nat) {
    |vectors| == n && forall v :: v in vectors ==> |v| == |vectors[0]| && !IsZero(v)
  }

  /** What `saveEmbeddings` checks before it writes (core/catalog/src/embeddings.ts). */
  ghost predicate Savable(items: seq<Item>) {
    && |items| <= MAX_EMBEDDINGS_PER_VERSION
    && (forall i, j :: 0 <= i < j < |items| ==> items[i].key != items[j].key)
    && (forall i :: 0 <= i < |items| ==>
          && items[i].key.place <= 1_000 && (items[i].key.part == Summary ==> items[i].key.place == 0)
          && 1 <= |items[i].stored.vec| <= MAX_EMBEDDING_DIMENSIONS && !IsZero(items[i].stored.vec))
    && OneSize(items)
  }

  /** What it writes: exactly the items. */
  function RowsOf(items: seq<Item>): Rows {
    if items == [] then map[] else RowsOf(items[..|items| - 1])[items[|items| - 1].key := items[|items| - 1].stored]
  }

  /** What the call comes to. */
  datatype Call = Answered(vectors: seq<Vector>) | Throws(e: Thrown)

  datatype End = NoTexts | NoClient | UpToDate | OverBudget | HeldBack | Unusable | SizeChanged | Saved | Fails

  /** What the missing texts are estimated at, the tokens an answer reports, and the calls counted. */
  datatype Cost = Cost(tokens: nat, input: Ledger.Num, sent: nat)

  /**
   What is outside the step: whether a provider may have the texts, whether the day's budget has room,
   what the call costs and gives, where the job is, which transactions commit (`first` of the
   reservation, `own` of the save, `last` of the `finally`), and what others do to the tokens between those.
   */
  datatype World = World(
    allowed: bool, granted: bool, cost: Cost, call: Call, job: Job, first: bool, own: bool, last: bool,
    others: Ledger.Meanwhile)

  // --- What a run comes to ------------------------------------------------------------------------

  /** Some text is to be embedded, so tokens are reserved; */
  predicate Reserves(have: Rows, wanted: seq<Wanted>, w: World) {
    wanted != [] && w.allowed && Missing(have, wanted) != [] && w.first
  }

  /** and the call is made. */
  predicate Asks(have: Rows, wanted: seq<Wanted>, w: World) {
    Reserves(have, wanted, w) && w.granted
  }

  /** And answered as it should be. */
  predicate Answers(have: Rows, wanted: seq<Wanted>, w: World) {
    Asks(have, wanted, w) && w.call.Answered? && Usable(w.call.vectors, |Missing(have, wanted)|)
  }

  /** A vector kept for a wanted text is not as long as `size`. */
  predicate KeptDiffers(have: Rows, wanted: seq<Wanted>, size: nat) {
    exists i :: 0 <= i < |wanted| && Differs(have, wanted[i], size)
  }

  predicate Differs(have: Rows, w: Wanted, size: nat) {
    Has(have, w) && |have[w.key].vec| != size
  }

  predicate SizeChanges(have: Rows, wanted: seq<Wanted>, w: World) {
    Answers(have, wanted, w) && w.call.vectors != [] && KeptDiffers(have, wanted, |w.call.vectors[0]|)
  }

  /** What a run would save: the kept vectors, and the new ones if it asked for any. */
  function Items(have: Rows, wanted: seq<Wanted>, answers: seq<Vector>): seq<Item>
    requires |answers| == |Missing(have, wanted)|
  {
    MissingMerges(have, wanted, answers);
    Merged(have, wanted, Vectors(Missing(have, wanted), answers))
  }

  /** It has nothing to ask for and nothing to drop, */
  predicate IsUpToDate(have: Rows, wanted: seq<Wanted>, w: World) {
    wanted != [] && w.allowed && Missing(have, wanted) == [] && |have| == |wanted|
  }

  /** or rows to drop. */
  predicate OnlyDrops(have: Rows, wanted: seq<Wanted>, w: World) {
    wanted != [] && w.allowed && Missing(have, wanted) == [] && |have| != |wanted|
  }

  ghost predicate Saves(have: Rows, wanted: seq<Wanted>, w: World) {
    && w.own
    && (|| (OnlyDrops(have, wanted, w) && Savable(Items(have, wanted, [])))
        || (Answers(have, wanted, w) && Savable(Items(have, wanted, w.call.vectors))))
  }

  /** The rows a run leaves. */
  ghost function RowsAfter(have: Rows, wanted: seq<Wanted>, w: World): Rows {
    if !Saves(have, wanted, w) then have
    else RowsOf(Items(have, wanted, if OnlyDrops(have, wanted, w) then [] else w.call.vectors))
  }

  /** Nothing usable came, and asking again would not help or there is no try left. */
  predicate GivesUp(have: Rows, wanted: seq<Wanted>, w: World) {
    && Asks(have, wanted, w)
    && if w.call.Throws? then w.call.e != Model(Withheld) && Skippable(w.call.e, w.job)
       else !Usable(w.call.vectors, |Missing(have, wanted)|) && Skippable(BadVectors, w.job)
  }

  /** What a run does to the tokens: it settles with the rows if they are saved, else as it leaves. */
  ghost function SpendingOf(have: Rows, wanted: seq<Wanted>, w: World): Ledger.Spending {
    Ledger.Spending(Ledger.Embed, w.cost.tokens, ReportsOf(w), w.cost.sent, Saves(have, wanted, w), w.last)
  }

  /** What its call came to: nothing if it threw. */
  function Used(w: World): Ledger.Num {
    Ledger.Tally(Ledger.Embed, w.cost.tokens, ReportsOf(w))
  }

  function ReportsOf(w: World): seq<Ledger.Report> {
    if w.call.Answered? then [Ledger.Report(w.cost.input, Ledger.Finite(0.0))] else []
  }

  /** What a run of this world is, given the tokens of its day: they say whether there is room. */
  function In(w: World, ledger: Ledger.Rows, k: Ledger.Key, limit: nat): World {
    w.(granted := Ledger.Reserve(ledger, k, w.cost.tokens, limit).1.Some?)
  }

  /** The tokens it leaves. */
  ghost function LedgerAfter(have: Rows, wanted: seq<Wanted>, w: World, ledger: Ledger.Rows, k: Ledger.Key, limit: nat)
    : Ledger.Rows {
    if Reserves(have, wanted, w) then Ledger.Spend(ledger, k, limit, SpendingOf(have, wanted, w), w.others) else ledger
  }

  /** A version, the tokens of all days, and how often this run's reservation has been settled. */
  class Version {
    var rows: Rows
    var ledger: Ledger.Rows
    var settles: nat

    constructor (rows: Rows, ledger: Ledger.Rows)
      ensures this.rows == rows && this.ledger == ledger && settles == 0
    {
      this.rows := rows;
      this.ledger := ledger;
      settles := 0;
    }

    method SettleNow(k: Ledger.Key, res: Ledger.Reservation, used: Ledger.Num, calls: nat)
      modifies this`ledger, this`settles
      ensures ledger == Ledger.Settle(old(ledger), k.tenant, res, used, calls) && settles == old(settles) + 1
    {
      ledger := Ledger.Settle(ledger, k.tenant, res, used, calls);
      settles := settles + 1;
    }

    /** `saveEmbeddings`, in a transaction that commits or not. */
    method Save(items: seq<Item>, commits: bool) returns (ok: bool)
      modifies this`rows
      ensures ok == (Savable(items) && commits)
      ensures rows == (if ok then RowsOf(items) else old(rows))
    {
      ok := false;
      var fits := Check(items);
      if fits && commits {
        rows := RowsOf(items);
        ok := true;
      }
    }

    /** The checks, item by item, as the source makes them. */
    method Check(items: seq<Item>) returns (ok: bool)
      ensures ok == Savable(items)
    {
      if |items| > MAX_EMBEDDINGS_PER_VERSION {
        return false;
      }
      var keys: set<Key> := {};
      var i := 0;
      while i < |items|
        invariant i <= |items|
        invariant keys == set j | 0 <= j < i :: items[j].key
        invariant Savable(items[..i])
      {
        var item := items[i];
        var v := item.stored.vec;
        assert items[..i + 1] == items[..i] + [item];
        if item.key.place > 1_000 || (item.key.part == Summary && item.key.place != 0) || item.key in keys
           || |v| < 1 || |v| > MAX_EMBEDDING_DIMENSIONS || IsZero(v) || |v| != |items[0].stored.vec|
        {
          return false;
        }
        keys := keys + {item.key};
        i := i + 1;
      }
      assert items[..i] == items;
      ok := true;
    }

    /** `run`, from the texts on. */
    method Run(summary: Option<string>, chunks: seq<string>, maxChars: nat, hash: string -> Hash, outside: World,
               k: Ledger.Key, limit: nat)
      returns (end: End)
      requires settles == 0
      modifies this
      // How it ends, exactly.
      ensures var wanted := WantedOf(Texts(summary, chunks), maxChars, hash);
              var have := old(rows);
              var w := In(outside, old(ledger), k, limit);
              && (end == NoTexts <==> summary == None && chunks == [])
              && (end == NoClient <==> wanted != [] && !w.allowed)
              && (end == UpToDate <==> IsUpToDate(have, wanted, w))
              && (end == OverBudget <==> Reserves(have, wanted, w) && !w.granted)
              && (end == HeldBack <==> Asks(have, wanted, w) && w.call == Throws(Model(Withheld)))
              && (end == Unusable <==> GivesUp(have, wanted, w))
              && (end == SizeChanged <==> SizeChanges(have, wanted, w))
              && (end == Saved <==> Saves(have, wanted, w))
              && rows == RowsAfter(have, wanted, w)
      // A reservation is settled once: with the rows if they are saved, else as the run leaves, if that commits.
      ensures var wanted := WantedOf(Texts(summary, chunks), maxChars, hash);
              var w := In(outside, old(ledger), k, limit);
              && settles == (if Asks(old(rows), wanted, w) && (end == Saved || w.last) then 1 else 0)
              && ledger == LedgerAfter(old(rows), wanted, w, old(ledger), k, limit)
    {
      hide Missing, WantedOf, Texts, Savable, RowsOf, Vectors, Merged, DistinctKeys, Usable, KeptDiffers, Skippable,
        Items,
           Ledger.Reserve, Ledger.Settle, Used;
      var texts := Texts(summary, chunks);
      TextCount(summary, chunks, maxChars, hash);
      if |texts| == 0 {
        return NoTexts;
      }
      if !outside.allowed {
        return NoClient;
      }
      var wanted := WantedOf(texts, maxChars, hash);
      WantedKeys(summary, chunks, maxChars, hash);
      var missing := Missing(rows, wanted);
      if missing == [] && |rows| == |wanted| {
        return UpToDate;
      }
      if missing == [] {
        NothingMissingMerges(rows, wanted);
        ItemsOfNothing(rows, wanted);
        var ok := Save(Merged(rows, wanted, map[]), outside.own);
        return if ok then Saved else Fails;
      }
      if !outside.first {
        return Fails;
      }
      var (reserved, res) := Ledger.Reserve(ledger, k, outside.cost.tokens, limit);
      if res == None {
        return OverBudget;
      }
      ledger := reserved;
      end := Embed(wanted, outside.(granted := true), k, res.value);
    }

    /** The rest of it, once tokens are reserved: `ask`, the save and the `finally`. */
    method Embed(wanted: seq<Wanted>, w: World, k: Ledger.Key, res: Ledger.Reservation) returns (end: End)
      requires Asks(rows, wanted, w) && DistinctKeys(wanted) && settles == 0
      modifies this
      ensures end in {HeldBack, Unusable, SizeChanged, Saved, Fails}
      ensures end == HeldBack <==> w.call == Throws(Model(Withheld))
      ensures end == Unusable <==> GivesUp(old(rows), wanted, w)
      ensures end == SizeChanged <==> SizeChanges(old(rows), wanted, w)
      ensures end == Saved <==> Saves(old(rows), wanted, w)
      ensures rows == RowsAfter(old(rows), wanted, w) && settles == if end == Saved || w.last then 1 else 0
      ensures ledger == Ledger.RestOf(old(ledger), k.tenant, res, SpendingOf(old(rows), wanted, w), w.others)
    {
      hide Missing, Savable, RowsOf, Vectors, Merged, DistinctKeys, OneSize, Usable, KeptDiffers, Skippable, Items,
           Ledger.Settle, Ledger.Clamp;
      var missing := Missing(rows, wanted);
      var call, used := w.call, Ledger.Finite(0.0);
      if call.Answered? {
        used := Ledger.Finite(Ledger.Clamp(w.cost.input, w.cost.tokens) as real);
      }
      ledger := w.others.calling(ledger);
      var settled := false;
      if call.Throws? {
        end := if call.e == Model(Withheld) then HeldBack else if Skippable(call.e, w.job) then Unusable else Fails;
      } else if !Usable(call.vectors, |missing|) {
        end := if Skippable(BadVectors, w.job) then Unusable else Fails;
      } else {
        UsableCount(call.vectors, |missing|);
        MissingMerges(rows, wanted, call.vectors);
        OneSizeExactly(rows, wanted, call.vectors);
        ItemsAre(rows, wanted, call.vectors);
        var items := Merged(rows, wanted, Vectors(missing, call.vectors));
        SavableIsOneSize(items);
        if !OneSize(items) {
          end := SizeChanged;
        } else {
          // One transaction: the settlement holds only if the rows do.
          settled := Save(items, w.own);
          if settled {
            SettleNow(k, res, used, w.cost.sent);
          }
          end := if settled then Saved else Fails;
        }
      }
      // `finally`
      if !settled {
        ledger := w.others.leaving(ledger);
        if w.last {
          SettleNow(k, res, used, w.cost.sent);
        }
      }
    }
  }

  // --- What it means ----------------------------------------------------------------------------

  /** Every row pairs a hash with the vector of the text it is the hash of. */
  ghost predicate Right(rows: Rows, vec: Hash -> Vector) {
    forall k :: k in rows ==> rows[k].vec == vec(rows[k].hash)
  }

  /** The provider answers each text with its vector. */
  ghost predicate RightAnswer(call: Call, missing: seq<Wanted>, vec: Hash -> Vector) {
    call.Answered? && |call.vectors| == |missing| ==>
      forall i :: 0 <= i < |missing| ==> call.vectors[i] == vec(missing[i].hash)
  }

  /** Embedding every wanted text anew. */
  ghost function Scratch(wanted: seq<Wanted>, vec: Hash -> Vector): Rows {
    map k | k in KeysOf(wanted) :: ScratchAt(wanted, k, vec)
  }

  function KeysOf(wanted: seq<Wanted>): set<Key> {
    set i | 0 <= i < |wanted| :: wanted[i].key
  }

  /** The last of the wanted texts with that key. */
  ghost function ScratchAt(wanted: seq<Wanted>, k: Key, vec: Hash -> Vector): Stored
    requires k in KeysOf(wanted)
  {
    var n := |wanted| - 1;
    if wanted[n].key == k then Stored(wanted[n].hash, vec(wanted[n].hash)) else ScratchAt(wanted[..n], k, vec)
  }

  ghost predicate DistinctKeys(wanted: seq<Wanted>) {
    forall i, j :: 0 <= i < j < |wanted| ==> wanted[i].key != wanted[j].key
  }

  lemma WantedKeys(summary: Option<string>, chunks: seq<string>, maxChars: nat, hash: string -> Hash)
    ensures DistinctKeys(WantedOf(Texts(summary, chunks), maxChars, hash))
  {
    var texts := Texts(summary, chunks);
    var front := if summary.Some? then 1 else 0;
    assert forall i :: front <= i < |texts| ==> texts[i].key == Key(Chunk, i - front);
  }

  lemma {:induction false} ScratchOf(wanted: seq<Wanted>, i: nat, vec: Hash -> Vector)
    requires DistinctKeys(wanted) && i < |wanted|
    ensures wanted[i].key in Scratch(wanted, vec)
    ensures Scratch(wanted, vec)[wanted[i].key] == Stored(wanted[i].hash, vec(wanted[i].hash))
  {
    var n := |wanted| - 1;
    assert wanted[i].key in KeysOf(wanted);
    if i < n {
      ScratchOf(wanted[..n], i, vec);
      assert wanted[..n][i] == wanted[i];
    }
  }

  lemma {:induction false} NothingMissing(have: Rows, wanted: seq<Wanted>)
    requires Missing(have, wanted) == []
    ensures forall i :: 0 <= i < |wanted| ==> Has(have, wanted[i])
  {
    if wanted != [] {
      NothingMissing(have, wanted[1..]);
      assert forall i :: 0 < i < |wanted| ==> wanted[i] == wanted[1..][i - 1];
    }
  }

  lemma {:induction false} MissingOrHave(have: Rows, wanted: seq<Wanted>)
    ensures forall i :: 0 <= i < |wanted| ==> Has(have, wanted[i]) != (wanted[i] in Missing(have, wanted))
    ensures forall w :: w in Missing(have, wanted) ==> w in wanted
  {
    if wanted != [] {
      MissingOrHave(have, wanted[1..]);
      assert forall i :: 0 < i < |wanted| ==> wanted[i] == wanted[1..][i - 1];
      assert forall w :: w in Missing(have, wanted) ==> !Has(have, w);
    }
  }

  lemma {:induction false} KeyCount(wanted: seq<Wanted>)
    requires DistinctKeys(wanted)
    ensures |KeysOf(wanted)| == |wanted|
  {
    if wanted != [] {
      var n := |wanted| - 1;
      KeyCount(wanted[..n]);
      assert KeysOf(wanted) == KeysOf(wanted[..n]) + {wanted[n].key};
    }
  }

  /** The early return: nothing missing and as many rows as texts means the rows are the texts'. */
  lemma SameSizeIsSame(have: Rows, wanted: seq<Wanted>, vec: Hash -> Vector)
    requires DistinctKeys(wanted) && Missing(have, wanted) == [] && |have| == |wanted|
    ensures Right(have, vec) ==> have == Scratch(wanted, vec)
  {
    if !Right(have, vec) {
      return;
    }
    NothingMissing(have, wanted);
    KeyCount(wanted);
    assert KeysOf(wanted) <= have.Keys;
    SubsetOfSameSize(KeysOf(wanted), have.Keys);
    forall k | k in have ensures have[k] == Scratch(wanted, vec)[k] {
      var i :| 0 <= i < |wanted| && wanted[i].key == k;
      assert Has(have, wanted[i]);
      ScratchOf(wanted, i, vec);
    }
  }

  lemma {:induction false} VectorsOfMissing(missing: seq<Wanted>, vectors: seq<Vector>)
    requires |missing| == |vectors|
    ensures forall k :: k in Vectors(missing, vectors) <==> k in KeysOf(missing)
  {
    if missing != [] {
      var n := |missing| - 1;
      VectorsOfMissing(missing[..n], vectors[..n]);
      assert KeysOf(missing) == KeysOf(missing[..n]) + {missing[n].key};
    }
  }

  lemma {:induction false} VectorsAreRight(missing: seq<Wanted>, vectors: seq<Vector>, vec: Hash -> Vector)
    requires |missing| == |vectors| && forall i :: 0 <= i < |missing| ==> vectors[i] == vec(missing[i].hash)
    ensures forall k :: k in Vectors(missing, vectors) ==>
              exists i :: 0 <= i < |missing| && missing[i].key == k
                && Vectors(missing, vectors)[k] == vec(missing[i].hash)
  {
    if missing != [] {
      var n := |missing| - 1;
      VectorsAreRight(missing[..n], vectors[..n], vec);
      forall k | k in Vectors(missing, vectors)
        ensures exists i ::
                  0 <= i < |missing| && missing[i].key == k && Vectors(missing, vectors)[k] == vec(missing[i].hash)
      {
        if k == missing[n].key {
          assert Vectors(missing, vectors)[k] == vectors[n];
        } else {
          var i :| 0 <= i < n && missing[..n][i].key == k
            && Vectors(missing[..n], vectors[..n])[k] == vec(missing[..n][i].hash);
          assert missing[i].key == k;
        }
      }
    }
  }

  lemma {:induction false} RowsOfItem(items: seq<Item>)
    requires forall i, j :: 0 <= i < j < |items| ==> items[i].key != items[j].key
    ensures forall i :: 0 <= i < |items| ==>
        items[i].key in RowsOf(items) && RowsOf(items)[items[i].key] == items[i].stored
    ensures forall k :: k in RowsOf(items) ==> exists i :: 0 <= i < |items| && items[i].key == k
  {
    if items != [] {
      var n := |items| - 1;
      RowsOfItem(items[..n]);
      forall k | k in RowsOf(items) ensures exists i :: 0 <= i < |items| && items[i].key == k {
        if k == items[n].key {
        } else {
          var i :| 0 <= i < n && items[..n][i].key == k;
          assert items[i].key == k;
        }
      }
      assert forall i :: 0 <= i < n ==> items[..n][i] == items[i];
    }
  }

  /** Items that pair each wanted text with its vector are written as from scratch. */
  lemma {:induction false} ItemsAreScratch(items: seq<Item>, wanted: seq<Wanted>, vec: Hash -> Vector)
    requires DistinctKeys(wanted) && |items| == |wanted|
    requires forall i :: 0 <= i < |items| ==>
        items[i] == Item(wanted[i].key, Stored(wanted[i].hash, vec(wanted[i].hash)))
    ensures RowsOf(items) == Scratch(wanted, vec) && Right(RowsOf(items), vec)
  {
    RowsOfItem(items);
    forall i | 0 <= i < |wanted|
      ensures wanted[i].key in RowsOf(items) && RowsOf(items)[wanted[i].key] == Scratch(wanted, vec)[wanted[i].key]
    {
      ScratchOf(wanted, i, vec);
      assert items[i].key in RowsOf(items);
    }
    assert RowsOf(items).Keys == Scratch(wanted, vec).Keys;
  }

  lemma TextCount(summary: Option<string>, chunks: seq<string>, maxChars: nat, hash: string -> Hash)
    ensures |Texts(summary, chunks)| == |WantedOf(Texts(summary, chunks), maxChars, hash)|
    ensures |Texts(summary, chunks)| == 0 <==> summary == None && chunks == []
  {
  }

  lemma ItemsOfNothing(have: Rows, wanted: seq<Wanted>)
    requires Missing(have, wanted) == [] && forall i :: 0 <= i < |wanted| ==> wanted[i].key in have
    ensures Items(have, wanted, []) == Merged(have, wanted, map[])
  {
  }

  lemma ItemsAre(have: Rows, wanted: seq<Wanted>, answers: seq<Vector>)
    requires |answers| == |Missing(have, wanted)|
    requires forall i :: 0 <= i < |wanted| ==>
        wanted[i].key in Vectors(Missing(have, wanted), answers) || wanted[i].key in have
    ensures Items(have, wanted, answers) == Merged(have, wanted, Vectors(Missing(have, wanted), answers))
  {
  }

  lemma SavableIsOneSize(items: seq<Item>)
    ensures Savable(items) ==> OneSize(items)
  {
  }

  lemma {:induction false} VectorsAreAnswers(missing: seq<Wanted>, answers: seq<Vector>)
    requires |missing| == |answers|
    ensures forall k :: k in Vectors(missing, answers) ==> Vectors(missing, answers)[k] in answers
  {
    if missing != [] {
      var n := |missing| - 1;
      VectorsAreAnswers(missing[..n], answers[..n]);
      assert answers[n] in answers;
    }
  }

  /** Which wanted texts get a new vector: those that are missing, and no other. */
  lemma NewOrKept(have: Rows, wanted: seq<Wanted>, answers: seq<Vector>, i: nat)
    requires DistinctKeys(wanted) && |answers| == |Missing(have, wanted)| && i < |wanted|
    ensures wanted[i].key in Vectors(Missing(have, wanted), answers) <==> !Has(have, wanted[i])
  {
    var missing := Missing(have, wanted);
    MissingOrHave(have, wanted);
    VectorsOfMissing(missing, answers);
    if !Has(have, wanted[i]) {
      var m :| 0 <= m < |missing| && missing[m] == wanted[i];
      assert missing[m].key in KeysOf(missing);
    }
    if wanted[i].key in KeysOf(missing) {
      var m :| 0 <= m < |missing| && missing[m].key == wanted[i].key;
      assert missing[m] in missing && missing[m] in wanted;
      assert missing[m] == wanted[i];
    }
  }

  /** With usable answers, the sizes agree exactly when no kept vector is longer or shorter than the new ones. */
  lemma OneSizeExactly(have: Rows, wanted: seq<Wanted>, answers: seq<Vector>)
    requires DistinctKeys(wanted) && Missing(have, wanted) != [] && Usable(answers, |Missing(have, wanted)|)
    requires forall i :: 0 <= i < |wanted| ==>
        wanted[i].key in Vectors(Missing(have, wanted), answers) || wanted[i].key in have
    ensures answers != []
    ensures OneSize(Merged(have, wanted, Vectors(Missing(have, wanted), answers))) <==>
        !KeptDiffers(have, wanted, |answers[0]|)
  {
    var missing := Missing(have, wanted);
    var vectors := Vectors(missing, answers);
    var items := Merged(have, wanted, vectors);
    var size := |answers[0]|;
    VectorsAreAnswers(missing, answers);
    forall i | 0 <= i < |wanted| ensures |items[i].stored.vec| != size <==> Differs(have, wanted[i], size) {
      NewOrKept(have, wanted, answers, i);
    }
    MissingOrHave(have, wanted);
    assert missing[0] in wanted;
    var m :| 0 <= m < |wanted| && wanted[m] == missing[0];
    assert missing[0] in missing;
    NewOrKept(have, wanted, answers, m);
    assert |items[m].stored.vec| == size;
    if !KeptDiffers(have, wanted, size) {
      forall i | 0 <= i < |items| ensures |items[i].stored.vec| == |items[0].stored.vec| {
        assert !Differs(have, wanted[i], size) && !Differs(have, wanted[0], size);
      }
    }
  }

  lemma UsableCount(vectors: seq<Vector>, n: nat)
    requires Usable(vectors, n)
    ensures |vectors| == n
  {
  }

  lemma {:induction false} NothingMissingMerges(have: Rows, wanted: seq<Wanted>)
    requires Missing(have, wanted) == []
    ensures forall i :: 0 <= i < |wanted| ==> wanted[i].key in have
  {
    NothingMissing(have, wanted);
    assert forall i :: 0 <= i < |wanted| ==> Has(have, wanted[i]);
  }

  /** The run with nothing missing: rows that are not wanted any more go, the rest stay. */
  lemma {:induction false} KeptAreScratch(have: Rows, wanted: seq<Wanted>, vec: Hash -> Vector)
    requires DistinctKeys(wanted) && Missing(have, wanted) == []
    requires forall i :: 0 <= i < |wanted| ==> wanted[i].key in have
    ensures Right(have, vec) ==>
              var rows := RowsOf(Merged(have, wanted, map[])); rows == Scratch(wanted, vec) && Right(rows, vec)
  {
    NothingMissing(have, wanted);
    if Right(have, vec) {
      assert forall i :: 0 <= i < |wanted| ==> Has(have, wanted[i]);
      ItemsAreScratch(Merged(have, wanted, map[]), wanted, vec);
    }
  }

  lemma {:induction false} MissingMerges(have: Rows, wanted: seq<Wanted>, vectors: seq<Vector>)
    requires |Missing(have, wanted)| == |vectors|
    ensures forall i :: 0 <= i < |wanted| ==>
        wanted[i].key in Vectors(Missing(have, wanted), vectors) || wanted[i].key in have
  {
    var missing := Missing(have, wanted);
    MissingOrHave(have, wanted);
    VectorsOfMissing(missing, vectors);
    forall i | 0 <= i < |wanted| ensures wanted[i].key in Vectors(missing, vectors) || wanted[i].key in have {
      if !Has(have, wanted[i]) {
        var m :| 0 <= m < |missing| && missing[m] == wanted[i];
        assert missing[m].key in KeysOf(missing);
      }
    }
  }

  /** Which vector a wanted text's item gets: its own, whether new or kept. */
  lemma {:induction false} MergedAreScratch(have: Rows, wanted: seq<Wanted>, call: Call, vec: Hash -> Vector)
    requires DistinctKeys(wanted) && call.Answered? && |Missing(have, wanted)| == |call.vectors|
    requires forall i :: 0 <= i < |wanted| ==>
               wanted[i].key in Vectors(Missing(have, wanted), call.vectors) || wanted[i].key in have
    ensures Right(have, vec) && RightAnswer(call, Missing(have, wanted), vec) ==>
              var rows := RowsOf(Merged(have, wanted, Vectors(Missing(have, wanted), call.vectors)));
              rows == Scratch(wanted, vec) && Right(rows, vec)
  {
    var missing := Missing(have, wanted);
    var vectors := Vectors(missing, call.vectors);
    if Right(have, vec) && RightAnswer(call, missing, vec) {
      MissingOrHave(have, wanted);
      VectorsOfMissing(missing, call.vectors);
      VectorsAreRight(missing, call.vectors, vec);
      var items := Merged(have, wanted, vectors);
      assert forall m :: 0 <= m < |missing| ==> missing[m].key in KeysOf(missing);
      forall i | 0 <= i < |items|
        ensures items[i] == Item(wanted[i].key, Stored(wanted[i].hash, vec(wanted[i].hash)))
      {
        if wanted[i].key in vectors {
          var m :| 0 <= m < |missing| && missing[m].key == wanted[i].key
            && vectors[wanted[i].key] == vec(missing[m].hash);
          assert missing[m] in wanted;
          assert missing[m] == wanted[i];
        } else {
          assert wanted[i] !in missing;
          assert Has(have, wanted[i]);
        }
      }
      ItemsAreScratch(items, wanted, vec);
    }
  }

  /**
   Incremental embedding is embedding from scratch: the rows that a run saves, or finds up to date, are
   those of embedding every text anew; and rows are never left with a vector of another text.
   */
  lemma AfterIsScratch(summary: Option<string>, chunks: seq<string>, maxChars: nat, hash: string -> Hash, have: Rows,
                       w: World, vec: Hash -> Vector)
    requires var missing := Missing(have, WantedOf(Texts(summary, chunks), maxChars, hash));
             Right(have, vec) && RightAnswer(w.call, missing, vec)
    ensures var wanted := WantedOf(Texts(summary, chunks), maxChars, hash);
            var rows := RowsAfter(have, wanted, w);
            Right(rows, vec) && (Saves(have, wanted, w) || IsUpToDate(have, wanted, w) ==> rows == Scratch(wanted, vec))
  {
    hide Missing, WantedOf, Texts, Scratch, Right, RightAnswer, Savable, RowsOf, Vectors, Merged, DistinctKeys,
      Usable, Items;
    var wanted := WantedOf(Texts(summary, chunks), maxChars, hash);
    WantedKeys(summary, chunks, maxChars, hash);
    if IsUpToDate(have, wanted, w) {
      SameSizeIsSame(have, wanted, vec);
    } else if OnlyDrops(have, wanted, w) {
      NothingMissingMerges(have, wanted);
      KeptAreScratch(have, wanted, vec);
      ItemsOfNothing(have, wanted);
    } else if Answers(have, wanted, w) {
      UsableCount(w.call.vectors, |Missing(have, wanted)|);
      MissingMerges(have, wanted, w.call.vectors);
      MergedAreScratch(have, wanted, w.call, vec);
      ItemsAre(have, wanted, w.call.vectors);
    }
  }

  /**
   With at most 63 chunks and usable, equally long vectors, the save is refused exactly when they
   are longer than a stored vector may be.
   */
  lemma {:induction false} SavableExactly(summary: Option<string>, chunks: seq<string>, maxChars: nat,
                                          hash: string -> Hash,
                                          have: Rows, vectors: map<Key, Vector>, size: nat)
    requires |chunks| <= 63 && size > 0
    requires var wanted := WantedOf(Texts(summary, chunks), maxChars, hash);
             && |wanted| > 0
             && (forall i :: 0 <= i < |wanted| ==> wanted[i].key in vectors || wanted[i].key in have)
             && forall i :: 0 <= i < |wanted| ==>
                  var v := Merged(have, wanted, vectors)[i].stored.vec; |v| == size && !IsZero(v)
    ensures Savable(Merged(have, WantedOf(Texts(summary, chunks), maxChars, hash), vectors)) <==>
        size <= MAX_EMBEDDING_DIMENSIONS
  {
    var texts := Texts(summary, chunks);
    var items := Merged(have, WantedOf(texts, maxChars, hash), vectors);
    WantedKeys(summary, chunks, maxChars, hash);
    var front := if summary.Some? then 1 else 0;
    assert forall i :: front <= i < |texts| ==> texts[i].key == Key(Chunk, i - front);
    assert |items[0].stored.vec| == size;
    assert forall i :: 0 <= i < |items| ==> items[i].key == texts[i].key;
  }

  // --- What a run that can't save leaves for the next -----------------------------------------------

  /** The rows after some runs on the same texts. */
  ghost function After(have: Rows, wanted: seq<Wanted>, ws: seq<World>): Rows
    decreases |ws|
  {
    if ws == [] then have else After(RowsAfter(have, wanted, ws[0]), wanted, ws[1..])
  }

  /** The provider's vectors have `size` numbers, if it answers. */
  predicate OfSize(w: World, size: nat) {
    w.call.Answered? && w.call.vectors != [] ==> |w.call.vectors[0]| == size
  }

  /** What is to be saved has a vector of the answer's size: one that was missing. */
  lemma HasNewSize(have: Rows, wanted: seq<Wanted>, answers: seq<Vector>) returns (m: nat)
    requires DistinctKeys(wanted) && Missing(have, wanted) != [] && Usable(answers, |Missing(have, wanted)|)
    ensures answers != [] && m < |wanted| && |Items(have, wanted, answers)[m].stored.vec| == |answers[0]|
  {
    var missing := Missing(have, wanted);
    MissingOrHave(have, wanted);
    assert missing[0] in missing && missing[0] in wanted;
    m :| 0 <= m < |wanted| && wanted[m] == missing[0];
    NewOrKept(have, wanted, answers, m);
    VectorsAreAnswers(missing, answers);
  }

  /** An answered run saves only if no kept vector differs in size from the new ones, and those can be stored. */
  lemma SavesOnlyOneSize(have: Rows, wanted: seq<Wanted>, w: World)
    requires DistinctKeys(wanted) && Missing(have, wanted) != [] && Saves(have, wanted, w)
    ensures Answers(have, wanted, w) && w.call.vectors != []
    ensures !KeptDiffers(have, wanted, |w.call.vectors[0]|) && |w.call.vectors[0]| <= MAX_EMBEDDING_DIMENSIONS
  {
    var m := HasNewSize(have, wanted, w.call.vectors);
    MissingMerges(have, wanted, w.call.vectors);
    OneSizeExactly(have, wanted, w.call.vectors);
    SavableIsOneSize(Items(have, wanted, w.call.vectors));
    hide OneSize, Usable, Missing, Vectors, Merged;
    assert Savable(Items(have, wanted, w.call.vectors));
  }

  /**
   The model's size changed: while a vector of another size is kept for a text that is still wanted, no
   run on these texts saves, however many there are and whatever else happens.
   */
  lemma {:induction false} StuckWhileKept(have: Rows, wanted: seq<Wanted>, size: nat, ws: seq<World>)
    requires DistinctKeys(wanted) && Missing(have, wanted) != [] && KeptDiffers(have, wanted, size)
    requires forall w :: w in ws ==> OfSize(w, size)
    ensures After(have, wanted, ws) == have
    ensures forall w :: w in ws ==> !Saves(have, wanted, w)
    ensures forall w :: w in ws && Answers(have, wanted, w) ==> SizeChanges(have, wanted, w)
    decreases |ws|
  {
    hide Savable, Missing, Usable, KeptDiffers;
    if ws != [] {
      assert OfSize(ws[0], size);
      if Saves(have, wanted, ws[0]) {
        SavesOnlyOneSize(have, wanted, ws[0]);
      }
      assert ws[0] in ws && forall w :: w in ws[1..] ==> w in ws;
      StuckWhileKept(have, wanted, size, ws[1..]);
      assert Answers(have, wanted, ws[0]) ==> SizeChanges(have, wanted, ws[0]) by {
        if Answers(have, wanted, ws[0]) {
          AnswersSomething(have, wanted, ws[0]);
        }
      }
    }
  }

  lemma AnswersSomething(have: Rows, wanted: seq<Wanted>, w: World)
    requires Answers(have, wanted, w)
    ensures w.call.vectors != []
  {
  }

  /** A concrete version: two chunks, the first embedded with one number, the second now with two. */
  lemma SizeChangeExample(hash: string -> Hash, cost: Cost, job: Job, others: Ledger.Meanwhile)
    ensures var wanted := WantedOf(Texts(None, ["a", "b"]), 10, hash);
            var have := map[Key(Chunk, 0) := Stored(hash("a"), [1.0])];
            var w := World(true, true, cost, Answered([[1.0, 2.0]]), job, true, true, true, others);
            Right(have, _ => [1.0]) && SizeChanges(have, wanted, w)
  {
    var wanted := WantedOf(Texts(None, ["a", "b"]), 10, hash);
    var have := map[Key(Chunk, 0) := Stored(hash("a"), [1.0])];
    var texts := Texts(None, ["a", "b"]);
    assert texts[0] == Text(Key(Chunk, 0), "a") && texts[1] == Text(Key(Chunk, 1), "b");
    assert "a"[..1] == "a" && "b"[..1] == "b";
    assert |"a"| == 1 && |"b"| == 1 && Min(10, 1) == 1;
    var first := Wanted(Key(Chunk, 0), "a", hash("a"));
    var second := Wanted(Key(Chunk, 1), "b", hash("b"));
    assert |wanted| == 2 && wanted[0] == first && wanted[1] == second;
    assert wanted[1..] == [second] && [second][1..] == [];
    assert Missing(have, [second]) == [second] + Missing(have, []) == [second];
    assert Missing(have, wanted) == [second];
    assert [1.0, 2.0][0] != 0.0;
    assert Differs(have, wanted[0], 2);
  }

  /** Vectors longer than a stored one may be are never saved, however often the call succeeds. */
  lemma {:induction false} LongNeverSaved(have: Rows, wanted: seq<Wanted>, size: nat, ws: seq<World>)
    requires DistinctKeys(wanted) && Missing(have, wanted) != [] && size > MAX_EMBEDDING_DIMENSIONS
    requires forall w :: w in ws ==> OfSize(w, size)
    ensures After(have, wanted, ws) == have && forall w :: w in ws ==> !Saves(have, wanted, w)
    decreases |ws|
  {
    hide Savable, Missing, Usable;
    if ws != [] {
      assert OfSize(ws[0], size);
      if Saves(have, wanted, ws[0]) {
        SavesOnlyOneSize(have, wanted, ws[0]);
      }
      assert ws[0] in ws && forall w :: w in ws[1..] ==> w in ws;
      LongNeverSaved(have, wanted, size, ws[1..]);
    }
  }

  /**
   And there are such vectors: of 16,001 to 16,384 numbers. The answer is accepted and usable, the
   texts are new, nothing else goes wrong, and the job fails on each attempt, the last one included.
   */
  lemma LongVectorsFail(size: nat, text: string, maxChars: nat, hash: string -> Hash, w: World)
    requires MAX_EMBEDDING_DIMENSIONS < size <= EmbedAnswer.MAX_DIMENSIONS
    requires w.allowed && w.first && w.granted && w.call == Answered([Ones(size)])
    ensures EmbedAnswer.IsPermutation([EmbedAnswer.Item(Some(0), Some(Ones(size)))], 1)
    ensures var wanted := WantedOf(Texts(None, [text]), maxChars, hash);
            && Answers(map[], wanted, w) && !Saves(map[], wanted, w)
            && !SizeChanges(map[], wanted, w) && !GivesUp(map[], wanted, w)
  {
    var wanted := WantedOf(Texts(None, [text]), maxChars, hash);
    WantedKeys(None, [text], maxChars, hash);
    assert |wanted| == 1 && wanted[1..] == [];
    assert Missing(map[], wanted) == [wanted[0]] + Missing(map[], []) == [wanted[0]];
    assert Ones(size)[0] != 0.0;
    assert Answers(map[], wanted, w);
    LongNeverSaved(map[], wanted, size, [w]);
    assert w in [w];
  }

  function Ones(size: nat): (v: Vector)
    ensures |v| == size
  {
    seq(size, _ => 1.0)
  }
}
