/**
 Which windows of a long text are kept (ai/enrich/src/embed.ts, `chunkText`): `most` of them,
 spread evenly.
 */
module EvenSpread {
  import opened Common

  /**
   `Math.round(i * (n - 1) / Math.max(1, most - 1))`: the nearest whole number, halves up. (With at
   most 63 picks the quotient in doubles is never far enough from the real one to round elsewhere.)
   */
  function PickAt(i: nat, n: nat, most: nat): nat
    requires n > 0 && most > 0
  {
    var m := Max(1, most - 1);
    NatProduct(i, n - 1);
    (2 * (i * (n - 1)) + m) / (2 * m)
  }

  lemma NatProduct(a: nat, b: nat)
    ensures a * b >= 0
  {
  }

  /** Every window when there are `most` or fewer, else `most` of them. */
  function Picked(n: nat, most: nat): seq<nat>
    requires most > 0
  {
    if n <= most then seq(n, i => i) else seq(most, i requires 0 <= i < most => PickAt(i, n, most))
  }

  /** The same, as the source builds it: a Set of the rounded places, in the order they come. */
  method Pick(n: nat, most: nat) returns (picked: seq<nat>)
    requires most > 0
    ensures picked == Picked(n, most)
  {
    picked := [];
    if n <= most {
      var i := 0;
      while i < n
        invariant i <= n && picked == seq(i, j => j)
      {
        picked := picked + [i];
        i := i + 1;
      }
    } else {
      var i := 0;
      while i < most
        invariant i <= most && picked == seq(i, j requires 0 <= j < i => PickAt(j, n, most))
      {
        var p := PickAt(i, n, most);
        Increasing(n, most);
        // In a Set already: never, as the places increase.
        if p !in picked {
          picked := picked + [p];
        }
        i := i + 1;
      }
    }
  }

  /** No multiple of `d` is strictly between -d and d, but 0. */
  lemma NoSmallMultiple(k: int, d: int)
    requires d > 0
    ensures k == 0 || k * d >= d || k * d <= -d
  {
    if k >= 1 {
      assert (k - 1) * d >= 0;
    } else if k <= -1 {
      assert (-1 - k) * d >= 0;
    }
  }

  lemma DivUnique(a: int, d: int, q: int, r: int)
    requires d > 0 && a == q * d + r && 0 <= r < d
    ensures a / d == q
  {
    var q' := a / d;
    var r' := a % d;
    assert a == q' * d + r' && 0 <= r' < d;
    assert (q' - q) * d == q' * d - q * d;
    NoSmallMultiple(q' - q, d);
  }

  /** Adding `b` before dividing adds `b / d`, or one more. */
  lemma DivAdd(a: nat, b: nat, d: nat)
    requires d > 0
    ensures (a + b) / d == a / d + b / d || ((a + b) / d == a / d + b / d + 1 && b % d != 0)
  {
    var r := a % d + b % d;
    assert a == (a / d) * d + a % d && b == (b / d) * d + b % d;
    assert (a / d + b / d) * d == (a / d) * d + (b / d) * d;
    if r < d {
      DivUnique(a + b, d, a / d + b / d, r);
    } else {
      assert (a / d + b / d + 1) * d == (a / d + b / d) * d + d;
      DivUnique(a + b, d, a / d + b / d + 1, r - d);
    }
  }

  lemma Halve(n: nat, m: nat)
    requires m > 0
    ensures (2 * n) / (2 * m) == n / m && (2 * n) % (2 * m) == 2 * (n % m)
  {
    assert n == (n / m) * m + n % m;
    assert 2 * n == (n / m) * (2 * m) + 2 * (n % m);
    DivUnique(2 * n, 2 * m, n / m, 2 * (n % m));
  }

  /** Two picks in a row are the floor or the ceiling of (n - 1) / (most - 1) apart. */
  lemma Gap(i: nat, n: nat, most: nat)
    requires 2 <= most < n
    ensures var gap := PickAt(i + 1, n, most) - PickAt(i, n, most);
            gap == (n - 1) / (most - 1) || (gap == (n - 1) / (most - 1) + 1 && (n - 1) % (most - 1) != 0)
  {
    var m := most - 1;
    NatProduct(i, n - 1);
    NatProduct(i + 1, n - 1);
    assert (i + 1) * (n - 1) == i * (n - 1) + (n - 1);
    DivAdd(2 * (i * (n - 1)) + m, 2 * (n - 1), 2 * m);
    Halve(n - 1, m);
  }

  lemma Ends(n: nat, most: nat)
    requires 2 <= most < n
    ensures PickAt(0, n, most) == 0 && PickAt(most - 1, n, most) == n - 1
  {
    var m := most - 1;
    DivUnique(m, 2 * m, 0, m);
    assert 2 * (m * (n - 1)) + m == (n - 1) * (2 * m) + m;
    DivUnique(2 * (m * (n - 1)) + m, 2 * m, n - 1, m);
  }

  lemma {:induction false} IncreasingFrom(i: nat, j: nat, n: nat, most: nat)
    requires 2 <= most < n && i < j
    ensures PickAt(i, n, most) < PickAt(j, n, most)
  {
    Gap(j - 1, n, most);
    assert (n - 1) / (most - 1) >= 1 by {
      DivAdd(n - 1 - (most - 1), most - 1, most - 1);
      assert (most - 1) / (most - 1) == 1;
    }
    if i < j - 1 {
      IncreasingFrom(i, j - 1, n, most);
    }
  }

  lemma Increasing(n: nat, most: nat)
    requires 0 < most < n
    ensures forall i: nat, j: nat :: i < j < most ==> PickAt(i, n, most) < PickAt(j, n, most)
  {
    forall i: nat, j: nat | i < j < most ensures PickAt(i, n, most) < PickAt(j, n, most) {
      IncreasingFrom(i, j, n, most);
    }
  }

  /**
   The picks are strictly increasing window numbers. With more windows than `most` (two or more),
   exactly `most` are picked, the first and the last among them.
   */
  lemma PickedWell(n: nat, most: nat)
    requires most > 0
    ensures var p := Picked(n, most);
            && |p| == Min(n, most)
            && (forall i, j :: 0 <= i < j < |p| ==> p[i] < p[j])
            && (forall i :: 0 <= i < |p| ==> p[i] < n)
            && (n > 0 ==> p[0] == 0)
            && (n > 0 && most >= 2 ==> p[|p| - 1] == n - 1)
  {
    var p := Picked(n, most);
    if most < n {
      Increasing(n, most);
      assert forall i, j :: 0 <= i < j < |p| ==> p[i] < p[j];
      if most >= 2 {
        Ends(n, most);
        assert p[most - 1] == n - 1;
      }
    }
  }
}
