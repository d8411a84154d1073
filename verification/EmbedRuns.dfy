/**
 When the embed step saves, and what the next run on the same texts then finds (ai/enrich/src/embed.ts,
 `embedStep().run`).
 */
module EmbedRuns {
  import opened Common
  import opened EmbedStep
  import opened ModelErrors
  import Ledger = TokenLedger

  /** What a version's rows under one model are like: vectors of one size that may be stored, none zero. */
  ghost predicate GoodRows(rows: Rows) {
    && (forall k :: k in rows ==> 1 <= |rows[k].vec| <= 16_000 && !IsZero(rows[k].vec))
    && (forall j, k :: j in rows && k in rows ==> |rows[j].vec| == |rows[k].vec|)
  }

  lemma MergedAt(have: Rows, wanted: seq<Wanted>, answers: seq<Vector>, i: nat)
    requires DistinctKeys(wanted) && |answers| == |Missing(have, wanted)| && i < |wanted|
    ensures var items := Items(have, wanted, answers);
            && |items| == |wanted| && items[i].key == wanted[i].key && items[i].stored.hash == wanted[i].hash
            && (if Has(have, wanted[i]) then items[i].stored.vec == have[wanted[i].key].vec
                else items[i].stored.vec in answers)
  {
    MissingMerges(have, wanted, answers);
    NewOrKept(have, wanted, answers, i);
    VectorsAreAnswers(Missing(have, wanted), answers);
    hide Missing, Vectors, DistinctKeys;
  }

  /** All items of a run have vectors of one size that are not zero. */
  lemma ItemsAreGood(have: Rows, wanted: seq<Wanted>, answers: seq<Vector>, size: nat)
    requires DistinctKeys(wanted) && |answers| == |Missing(have, wanted)| && GoodRows(have)
    requires forall v :: v in answers ==> |v| == size && !IsZero(v)
    requires !KeptDiffers(have, wanted, size)
    ensures var items := Items(have, wanted, answers);
            forall i :: 0 <= i < |items| ==> |items[i].stored.vec| == size && !IsZero(items[i].stored.vec)
  {
    hide Missing, DistinctKeys, IsZero;
    forall i | 0 <= i < |wanted|
      ensures var v := Items(have, wanted, answers)[i].stored.vec; |v| == size && !IsZero(v)
    {
      MergedAt(have, wanted, answers, i);
      assert !Differs(have, wanted[i], size);
    }
    if wanted != [] { MergedAt(have, wanted, answers, 0); }
  }

  lemma NewSaves(summary: Option<string>, chunks: seq<string>, maxChars: nat, hash: string -> Hash, have: Rows,
         w: World)
    requires |chunks| <= 63 && GoodRows(have)
    requires Answers(have, WantedOf(Texts(summary, chunks), maxChars, hash), w)
    ensures var wanted := WantedOf(Texts(summary, chunks), maxChars, hash);
            && w.call.vectors != [] && !OnlyDrops(have, wanted, w)
            && (Saves(have, wanted, w) <==>
                  w.own && !SizeChanges(have, wanted, w) && |w.call.vectors[0]| <= 16_000)
  {
    var wanted := WantedOf(Texts(summary, chunks), maxChars, hash);
    var answers := w.call.vectors;
    WantedKeys(summary, chunks, maxChars, hash);
    AnswersSomething(have, wanted, w);
    if Saves(have, wanted, w) {
      SavesOnlyOneSize(have, wanted, w);
    }
    var size := |answers[0]|;
    if !SizeChanges(have, wanted, w) {
      hide Missing, WantedOf, DistinctKeys;
      ItemsAreGood(have, wanted, answers, size);
      MissingMerges(have, wanted, answers);
      ItemsAre(have, wanted, answers);
      assert answers[0] in answers;
      var items := Merged(have, wanted, Vectors(Missing(have, wanted), answers));
      assert forall i :: 0 <= i < |wanted| ==> |items[i].stored.vec| == size && !IsZero(items[i].stored.vec);
      SavableExactly(summary, chunks, maxChars, hash, have, Vectors(Missing(have, wanted), answers), size);
    }
  }

  /** Dropping rows always can be saved: what is kept was stored before. */
  lemma DropsSave(summary: Option<string>, chunks: seq<string>, maxChars: nat, hash: string -> Hash, have: Rows,
         w: World)
    requires |chunks| <= 63 && GoodRows(have)
    requires OnlyDrops(have, WantedOf(Texts(summary, chunks), maxChars, hash), w)
    ensures Saves(have, WantedOf(Texts(summary, chunks), maxChars, hash), w) <==> w.own
  {
    var wanted := WantedOf(Texts(summary, chunks), maxChars, hash);
    WantedKeys(summary, chunks, maxChars, hash);
    NothingMissing(have, wanted);
    NothingMissingMerges(have, wanted);
    ItemsOfNothing(have, wanted);
    hide Missing, WantedOf, DistinctKeys, IsZero;
    assert Has(have, wanted[0]);
    var size := |have[wanted[0].key].vec|;
    var items := Merged(have, wanted, map[]);
    forall i | 0 <= i < |wanted| ensures |items[i].stored.vec| == size && !IsZero(items[i].stored.vec) {
      assert Has(have, wanted[i]);
    }
    SavableExactly(summary, chunks, maxChars, hash, have, map[], size);
  }

  /**
   Exactly when a run saves, the version having at most 63 chunks and rows that a save could have left: a provider
   may have the texts, and either nothing is missing and there are rows to drop, or tokens are granted for what is
   missing and it is answered as it should be, with vectors as long as those kept and no longer than 16,000. And,
   in both cases, the transaction commits.
   */
  lemma SavesExactly(summary: Option<string>, chunks: seq<string>, maxChars: nat, hash: string -> Hash, have: Rows,
         w: World)
    requires |chunks| <= 63 && GoodRows(have)
    ensures var wanted := WantedOf(Texts(summary, chunks), maxChars, hash);
            var missing := Missing(have, wanted);
            Saves(have, wanted, w) <==>
              && (summary.Some? || chunks != []) && w.allowed && w.own
              && if missing == [] then |have| != |wanted|
                 else
                   && w.first && w.granted && w.call.Answered? && Usable(w.call.vectors, |missing|)
                   && |w.call.vectors[0]| <= 16_000 && !KeptDiffers(have, wanted, |w.call.vectors[0]|)
  {
    var wanted := WantedOf(Texts(summary, chunks), maxChars, hash);
    TextCount(summary, chunks, maxChars, hash);
    hide Missing, Usable, KeptDiffers, WantedOf, Texts;
    if OnlyDrops(have, wanted, w) {
      DropsSave(summary, chunks, maxChars, hash, have, w);
    } else if Answers(have, wanted, w) {
      NewSaves(summary, chunks, maxChars, hash, have, w);
    }
  }

  lemma SavedRows(items: seq<Item>)
    requires Savable(items)
    ensures GoodRows(RowsOf(items)) && |RowsOf(items)| == |items|
    ensures forall i :: 0 <= i < |items| ==>
        items[i].key in RowsOf(items) && RowsOf(items)[items[i].key] == items[i].stored
  {
    RowsOfItem(items);
    RowCount(items);
  }

  lemma {:induction false} RowCount(items: seq<Item>)
    requires forall i, j :: 0 <= i < j < |items| ==> items[i].key != items[j].key
    ensures |RowsOf(items)| == |items|
  {
    if items != [] {
      var n := |items| - 1;
      RowCount(items[..n]);
      RowsOfItem(items[..n]);
    }
  }

  lemma {:induction false} AllHad(have: Rows, wanted: seq<Wanted>)
    requires forall i :: 0 <= i < |wanted| ==> Has(have, wanted[i])
    ensures Missing(have, wanted) == []
  {
    hide Has;
    if wanted != [] {
      AllHad(have, wanted[1..]);
    }
  }

  /**
   Once a run has saved, the next one on the same texts finds nothing to do, reserves no tokens and leaves the rows
   as they are, whatever would happen; and rows stay such as a save leaves.
   */
  lemma SavedIsUpToDate(summary: Option<string>, chunks: seq<string>, maxChars: nat, hash: string -> Hash, have: Rows,
         w: World, next: World)
    requires GoodRows(have)
    ensures var wanted := WantedOf(Texts(summary, chunks), maxChars, hash);
            var rows := RowsAfter(have, wanted, w);
            && GoodRows(rows)
            && (Saves(have, wanted, w) ==>
                  && (next.allowed ==> IsUpToDate(rows, wanted, next))
                  && !Reserves(rows, wanted, next) && RowsAfter(rows, wanted, next) == rows)
  {
    var wanted := WantedOf(Texts(summary, chunks), maxChars, hash);
    WantedKeys(summary, chunks, maxChars, hash);
    hide WantedOf, Missing, DistinctKeys, RowsOf, Items, Savable, GoodRows;
    if Saves(have, wanted, w) {
      if !OnlyDrops(have, wanted, w) { UsableCount(w.call.vectors, |Missing(have, wanted)|); }
      hide Usable;
      SavedHasAll(have, wanted, if OnlyDrops(have, wanted, w) then [] else w.call.vectors);
    }
  }

  lemma SavedHasAll(have: Rows, wanted: seq<Wanted>, answers: seq<Vector>)
    requires DistinctKeys(wanted) && |answers| == |Missing(have, wanted)| && Savable(Items(have, wanted, answers))
    ensures var rows := RowsOf(Items(have, wanted, answers));
            GoodRows(rows) && |rows| == |wanted| && Missing(rows, wanted) == []
  {
    hide Missing, DistinctKeys, Savable, GoodRows, RowsOf, Vectors;
    var items := Items(have, wanted, answers);
    SavedRows(items);
    forall i | 0 <= i < |wanted| ensures Has(RowsOf(items), wanted[i]) {
      MergedAt(have, wanted, answers, i);
    }
    AllHad(RowsOf(items), wanted);
  }

  // --- What a run that does not save comes to -----------------------------------------------------------

  /** Errors of which another try could not be better. */
  const FOR_GOOD: set<Code> := {Refused, Auth, Blocked, Unsupported, BadResponse, TooLarge}

  /**
   Exactly when a run gives a version up without vectors: a provider was asked, the job has not been called off, and
   what came of it would be no better another time, or there is no other. What is withheld is not given up.
   */
  lemma GivesUpExactly(have: Rows, wanted: seq<Wanted>, w: World)
    ensures GivesUp(have, wanted, w) <==>
            && wanted != [] && w.allowed && Missing(have, wanted) != [] && w.first && w.granted && !w.job.aborted
            && match w.call
               case Answered(vectors) => !Usable(vectors, |Missing(have, wanted)|)
               case Throws(e) =>
                 || e == BadVectors || (e == StepTimeout && w.job.finalAttempt)
                 || (e.Model? && e.code != Withheld && (e.code in FOR_GOOD || w.job.finalAttempt))
  {
    hide Missing, Usable;
  }

  /**
   What a run that reserves tokens leaves the day's row at, with no others between: what an answer was reported to
   have cost, up to the reservation, if it settles; and the reservation if neither transaction commits.
   */
  lemma CostsExactly(have: Rows, wanted: seq<Wanted>, w: World, ledger: Ledger.Rows, k: Ledger.Key, limit: nat)
    requires w.others == Ledger.ALONE && Reserves(have, wanted, w)
    requires k in ledger ==> ledger[k].tokens >= 0
    requires w.granted == Ledger.Reserve(ledger, k, w.cost.tokens, limit).1.Some?
    ensures var after := LedgerAfter(have, wanted, w, ledger, k, limit);
            Ledger.TokensAt(after, k) == Ledger.TokensAt(ledger, k) +
              if !w.granted then 0
              else if !Saves(have, wanted, w) && !w.last then w.cost.tokens
              else if w.call.Answered? then Ledger.Clamp(w.cost.input, w.cost.tokens)
              else 0
  {
    hide Missing, Savable, Items, Usable, Skippable;
    var sp := SpendingOf(have, wanted, w);
    Ledger.FloorOf(Ledger.Clamp(w.cost.input, w.cost.tokens));
    Ledger.FloorOf(0);
  }
}
