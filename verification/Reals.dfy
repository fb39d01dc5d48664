/** Facts about products and quotients of reals, each small enough to stay easy for the solver.
    Products with a scale and quotients by a zoom have names, so that proofs can treat them as atoms. */
module Reals {
  type Above0 = r: real | r > 0.0 witness 1.0

  function MinR(a: real, b: real): real {
    if a <= b then a else b
  }

  function MaxR(a: real, b: real): real {
    if a >= b then a else b
  }

  function Scaled(x: real, scale: real): real {
    x * scale
  }

  /** A pixel distance in world units. */
  function Per(x: real, zoom: Above0): real {
    x / zoom
  }

  lemma ScaledCommutes(x: real, y: real)
    ensures Scaled(x, y) == Scaled(y, x)
  {
  }

  lemma QuotientTimes(n: real, d: Above0)
    ensures Scaled(d, n / d) == n
    ensures n > 0.0 ==> n / d > 0.0
  {
  }

  lemma PositiveProduct(a: Above0, b: Above0)
    ensures a * b > 0.0
  {
  }

  lemma KeepsOrder(a: real, b: real, s: Above0)
    ensures a < b <==> Scaled(a, s) < Scaled(b, s)
    ensures a <= b <==> Scaled(a, s) <= Scaled(b, s)
  {
    if a < b {
      PositiveProduct(b - a, s);
      assert (b - a) * s == b * s - a * s;
    } else if b < a {
      PositiveProduct(a - b, s);
      assert (a - b) * s == a * s - b * s;
    }
  }

  lemma Distribute(x: real, lo: real, u: real, scale: real)
    ensures u == x - lo ==> Scaled(u, scale) == Scaled(x, scale) - Scaled(lo, scale)
  {
    assert (x - lo) * scale == x * scale - lo * scale;
  }

  /** A fraction of a displacement is between nothing and all of it. */
  lemma Fraction(t: real, d: real)
    requires 0.0 <= t <= 1.0
    ensures d >= 0.0 ==> 0.0 <= Scaled(d, t) <= d
    ensures d <= 0.0 ==> d <= Scaled(d, t) <= 0.0
  {
    ScaledByMore(d, 0.0, t);
    ScaledByMore(d, t, 1.0);
  }

  lemma ScaledByMore(d: real, s: real, t: real)
    ensures d > 0.0 ==> (s <= t <==> Scaled(d, s) <= Scaled(d, t)) && (s < t <==> Scaled(d, s) < Scaled(d, t))
    ensures d < 0.0 ==> (s <= t <==> Scaled(d, t) <= Scaled(d, s))
    ensures d == 0.0 ==> Scaled(d, s) == Scaled(d, t) == 0.0
  {
    ScaledCommutes(d, s);
    ScaledCommutes(d, t);
    if d > 0.0 {
      KeepsOrder(s, t, d);
    } else if d < 0.0 {
      KeepsOrder(s, t, -d);
      assert Scaled(s, -d) == -Scaled(s, d) && Scaled(t, -d) == -Scaled(t, d);
    }
  }

  /** Comparing two quotients is comparing the cross products. */
  lemma CrossMultiply(n: real, d: Above0, n': real, d': Above0)
    ensures n / d <= n' / d' <==> Scaled(n, d') <= Scaled(n', d)
  {
    PositiveProduct(d, d');
    var q, q', both: Above0 := n / d, n' / d', d * d';
    QuotientTimes(n, d);
    QuotientTimes(n', d');
    Reassociate(d, q, d');
    Reassociate(d', q', d);
    KeepsOrder(q', q, both);
  }

  lemma Reassociate(d: real, q: real, e: real)
    ensures Scaled(Scaled(d, q), e) == Scaled(q, d * e)
  {
    assert d * q * e == q * (d * e);
  }

  lemma SquareGrows(d: real, r: real)
    ensures d > r >= 0.0 ==> d * d > r * r
  {
    if d > r >= 0.0 {
      KeepsOrder(r, d, d);
      if r > 0.0 {
        KeepsOrder(r, d, r);
        ScaledCommutes(r, d);
      }
    }
  }

  lemma SquareBounds(d: real, other: real, r: real)
    requires r >= 0.0 && d * d + other * other == r * r
    ensures -r <= d <= r
  {
    assert other * other >= 0.0;
    assert (-d) * (-d) == d * d;
    SquareGrows(d, r);
    SquareGrows(-d, r);
  }

  lemma PerDistributes(x: real, y: real, d: real, zoom: Above0)
    ensures d == x - y ==> Per(d, zoom) == Per(x, zoom) - Per(y, zoom)
  {
    assert (x - y) / zoom == x / zoom - y / zoom;
  }

  lemma PerIsZeroIff(x: real, zoom: Above0)
    ensures Per(x, zoom) == 0.0 <==> x == 0.0
  {
    QuotientTimes(x, zoom);
    ScaledCommutes(zoom, Per(x, zoom));
  }

  lemma PerIsSameIff(x: real, zoom: Above0, zoom': Above0)
    ensures Per(x, zoom) == Per(x, zoom') <==> x == 0.0 || zoom == zoom'
  {
    var q, q' := Per(x, zoom), Per(x, zoom');
    QuotientTimes(x, zoom);
    QuotientTimes(x, zoom');
    ScaledByMore(q, zoom, zoom');
    ScaledByMore(q, zoom', zoom);
    ScaledCommutes(zoom, q);
    ScaledCommutes(zoom', q');
    PerIsZeroIff(x, zoom);
  }
}
