/** Integer facts shared by the models: rounding division and products, defined by recursion so
    that proofs about states stay linear, with lemmas that give their usual meaning. */
module Numbers {
  type Positive = n: nat | 0 < n witness 1

  function Min(a: int, b: int): int {
    if a <= b then a else b
  }

  function Max(a: int, b: int): int {
    if a >= b then a else b
  }

  /** How many pieces of size d cover n: `Math.ceil(n / d)`. */
  function CeilDiv(n: nat, d: Positive): nat {
    if n == 0 then 0 else if n <= d then 1 else 1 + CeilDiv(n - d, d)
  }

  predicate Multiple(n: nat, d: Positive) {
    n == 0 || (n >= d && Multiple(n - d, d))
  }

  function Times(a: nat, k: nat): nat {
    if k == 0 then 0 else a + Times(a, k - 1)
  }

  lemma {:induction false} TimesIsProduct(a: nat, k: nat)
    ensures Times(a, k) == a * k
  {
    if k > 0 {
      TimesIsProduct(a, k - 1);
      assert a * k == a + a * (k - 1);
    }
  }

  lemma {:induction false} TimesIsMonotone(a: nat, j: nat, k: nat)
    requires j <= k
    ensures Times(a, j) <= Times(a, k)
  {
    if j < k {
      TimesIsMonotone(a, j, k - 1);
    }
  }

  lemma QuotientIs(n: nat, d: nat, q: nat, r: nat)
    requires 0 < d && r < d && n == q * d + r
    ensures n / d == q && n % d == r
  {
    var q', r' := n / d, n % d;
    assert n == q' * d + r' && 0 <= r' < d;
    assert (q - q') * d == r' - r && (q' - q) * d == r - r';
    ProductAtLeast(q - q', d);
    ProductAtLeast(q' - q, d);
  }

  lemma ProductAtLeast(a: int, d: nat)
    ensures a >= 1 ==> a * d >= d
  {
    assert a * d == d + (a - 1) * d;
  }

  lemma {:induction false} CeilDivMeaning(n: nat, d: Positive)
    ensures CeilDiv(n, d) == (n + d - 1) / d
    ensures n <= CeilDiv(n, d) * d < n + d
  {
    if n == 0 {
      QuotientIs(d - 1, d, 0, d - 1);
    } else if n <= d {
      QuotientIs(n + d - 1, d, 1, n - 1);
    } else {
      CeilDivMeaning(n - d, d);
      var k := CeilDiv(n - d, d);
      assert (k + 1) * d == k * d + d;
      QuotientIs(n + d - 1, d, k + 1, n + d - 1 - (k * d + d));
    }
  }

  lemma {:induction false} CeilDivIsMonotone(a: nat, b: nat, d: Positive)
    requires a <= b
    ensures CeilDiv(a, d) <= CeilDiv(b, d)
  {
    if a > d {
      CeilDivIsMonotone(a - d, b - d, d);
    }
  }

  lemma {:induction false} CeilDivPassesMultiple(a: nat, b: nat, d: Positive)
    requires a < b && Multiple(a, d)
    ensures CeilDiv(a, d) + 1 <= CeilDiv(b, d)
  {
    if a > 0 {
      CeilDivPassesMultiple(a - d, b - d, d);
    }
  }

  lemma {:induction false} MultiplePlus(n: nat, d: Positive)
    requires Multiple(n, d)
    ensures Multiple(n + d, d)
  {
  }

  lemma {:induction false} MultipleMeaning(n: nat, d: Positive)
    ensures Multiple(n, d) <==> n % d == 0
    ensures Multiple(n, d) ==> n / d == CeilDiv(n, d)
  {
    if n == 0 {
      QuotientIs(0, d, 0, 0);
    } else if n < d {
      QuotientIs(n, d, 0, n);
    } else {
      MultipleMeaning(n - d, d);
      var q, r := (n - d) / d, (n - d) % d;
      assert (q + 1) * d == q * d + d;
      QuotientIs(n, d, q + 1, r);
    }
  }
}
