/**
 Reading an embeddings answer (ai/models/src/clients.ts, the `openai` embedder): its items come in
 any order, each naming the place of its vector.
 */
module EmbedAnswer {
  import opened Common

  type Vector = seq<real>

  const MAX_DIMENSIONS: nat := 16_384

  /** None where the answer has no whole number, or no array of finite numbers. */
  datatype Item = Item(index: Option<int>, embedding: Option<Vector>)

  predicate IsVector(v: Option<Vector>) {
    v.Some? && 0 < |v.value| <= MAX_DIMENSIONS
  }

  predicate Fits(item: Item, k: nat) {
    item.index.Some? && 0 <= item.index.value < k && IsVector(item.embedding)
  }

  /** The items name the places 0..k-1, each once. */
  ghost predicate IsPermutation(items: seq<Item>, k: nat) {
    && |items| == k
    && (forall j :: 0 <= j < k ==> Fits(items[j], k))
    && NamesApart(items, k)
  }

  /** The places named so far. */
  ghost function Named(items: seq<Item>, n: nat): set<int>
    requires n <= |items|
  {
    set j | 0 <= j < n && items[j].index.Some? :: items[j].index.value
  }

  ghost function Places(k: nat): set<int> {
    if k == 0 then {} else Places(k - 1) + {k - 1}
  }

  lemma {:induction false} PlacesCount(k: nat)
    ensures |Places(k)| == k && forall i :: i in Places(k) <==> 0 <= i < k
  {
    if k > 0 {
      PlacesCount(k - 1);
    }
  }

  /** One more item names one more place, or none. */
  lemma NamedStep(items: seq<Item>, n: nat)
    requires 0 < n <= |items|
    ensures Named(items, n) == Named(items, n - 1) + if items[n - 1].index.Some? then {items[n - 1].index.value} else {}
  {
  }

  lemma {:induction false} NamedAtMost(items: seq<Item>, n: nat)
    requires n <= |items|
    ensures |Named(items, n)| <= n
  {
    if n > 0 {
      NamedAtMost(items, n - 1);
      NamedStep(items, n);
    }
  }

  ghost predicate NamesApart(items: seq<Item>, n: nat)
    requires n <= |items|
  {
    forall i, j :: 0 <= i < j < n ==> items[i].index != items[j].index
  }

  /** As many places named as items, when no two items name the same. */
  lemma {:induction false} NamedByAll(items: seq<Item>, n: nat)
    requires n <= |items| && NamesApart(items, n) && forall i :: 0 <= i < n ==> items[i].index.Some?
    ensures |Named(items, n)| == n
  {
    if n > 0 {
      NamedByAll(items, n - 1);
      NamedStep(items, n);
      assert items[n - 1].index.value !in Named(items, n - 1);
    }
  }

  lemma IsNamed(items: seq<Item>, n: nat, i: nat)
    requires i < n <= |items|
    ensures items[i].index.Some? ==> items[i].index.value in Named(items, n)
  {
  }

  /** And only then. */
  lemma {:induction false} NamedApart(items: seq<Item>, n: nat)
    requires n <= |items| && |Named(items, n)| == n
    ensures NamesApart(items, n)
  {
    hide Named;
    if n > 0 {
      var before := Named(items, n - 1);
      NamedStep(items, n);
      NamedAtMost(items, n - 1);
      assert items[n - 1].index.Some? && items[n - 1].index.value !in before;
      NamedApart(items, n - 1);
      forall i | 0 <= i < n - 1 ensures items[i].index != items[n - 1].index {
        IsNamed(items, n - 1, i);
      }
    }
  }

  /** Every place is named exactly when no two items name the same one (the pigeonhole principle). */
  lemma NoHoleExactly(items: seq<Item>, k: nat)
    requires |items| == k && forall j :: 0 <= j < k ==> Fits(items[j], k)
    ensures (forall i :: 0 <= i < k ==> i in Named(items, k)) <==> IsPermutation(items, k)
  {
    PlacesCount(k);
    assert Named(items, k) <= Places(k);
    if NamesApart(items, k) {
      NamedByAll(items, k);
      SubsetOfSameSize(Named(items, k), Places(k));
    }
    if forall i :: 0 <= i < k ==> i in Named(items, k) {
      assert Places(k) == Named(items, k);
      NamedApart(items, k);
    }
  }

  /**
   An answer is accepted exactly when its items name each of the `k` places once, with vectors; each
   place then holds the vector of the item that named it.
   */
  method Read(items: seq<Item>, k: nat) returns (vectors: Option<seq<Vector>>)
    ensures vectors.Some? <==> IsPermutation(items, k)
    ensures vectors.Some? ==>
              |vectors.value| == k && forall j :: 0 <= j < k ==>
                vectors.value[items[j].index.value] == items[j].embedding.value
    ensures vectors.Some? ==> forall v :: v in vectors.value ==> 0 < |v| <= 16_384
  {
    if |items| != k {
      return None;
    }
    var filled := new Option<Vector>[k](_ => None);
    var j := 0;
    while j < k
      invariant j <= k
      invariant forall i :: 0 <= i < j ==> Fits(items[i], k)
      invariant forall p :: 0 <= p < k ==> (filled[p].Some? <==> p in Named(items, j))
      invariant forall p :: 0 <= p < k && filled[p].Some? ==> 0 < |filled[p].value| <= 16_384
      invariant NamesApart(items, j) ==>
                  forall i :: 0 <= i < j ==> filled[items[i].index.value] == items[i].embedding
    {
      if !Fits(items[j], k) {
        return None;
      }
      filled[items[j].index.value] := items[j].embedding;
      assert Named(items, j + 1) == Named(items, j) + {items[j].index.value};
      j := j + 1;
    }
    NoHoleExactly(items, k);
    // A place named twice leaves another without a vector.
    var out: seq<Vector> := [];
    var i := 0;
    while i < k
      invariant i <= k && |out| == i
      invariant forall p :: 0 <= p < i ==> filled[p] == Some(out[p])
      invariant forall v :: v in out ==> 0 < |v| <= 16_384
    {
      if filled[i] == None {
        return None;
      }
      out := out + [filled[i].value];
      i := i + 1;
    }
    return Some(out);
  }
}
