/** Integer powers: what is needed to read the logarithmic bin edges exactly. */
module Powers {

  function Pow(base: nat, e: nat): nat {
    if e == 0 then 1 else base * Pow(base, e - 1)
  }

  lemma {:induction false} PowPositive(base: nat, e: nat)
    requires base > 0
    ensures Pow(base, e) > 0
  {
    if e > 0 {
      PowPositive(base, e - 1);
    }
  }

  lemma {:induction false} PowMonotone(a: nat, b: nat, e: nat)
    requires a <= b
    ensures Pow(a, e) <= Pow(b, e)
  {
    if e > 0 {
      PowMonotone(a, b, e - 1);
      MulMonotone(a, b, Pow(a, e - 1), Pow(b, e - 1));
    }
  }

  lemma {:induction false} PowStrict(a: nat, b: nat, e: nat)
    requires a < b && e > 0
    ensures Pow(a, e) < Pow(b, e)
  {
    PowMonotone(a, b, e - 1);
    PowPositive(b, e - 1);
    MulMonotone(a, a, Pow(a, e - 1), Pow(b, e - 1));
    assert a * Pow(b, e - 1) < b * Pow(b, e - 1);
  }

  /** Taking e-th roots: the comparison of powers decides the comparison of bases. */
  lemma PowReflects(a: nat, b: nat, e: nat)
    requires Pow(a, e) < Pow(b, e)
    ensures a < b
  {
    if b <= a {
      PowMonotone(b, a, e);
    }
  }

  lemma {:induction false} PowExponentMonotone(base: nat, d: nat, e: nat)
    requires base > 0 && d <= e
    ensures Pow(base, d) <= Pow(base, e)
  {
    if d < e {
      PowExponentMonotone(base, d, e - 1);
      PowPositive(base, e - 1);
      MulMonotone(1, base, Pow(base, e - 1), Pow(base, e - 1));
    }
  }

  lemma {:induction false} PowProduct(a: nat, b: nat, e: nat)
    ensures Pow(a * b, e) == Pow(a, e) * Pow(b, e)
  {
    if e > 0 {
      PowProduct(a, b, e - 1);
      MulRearrange(a, b, Pow(a, e - 1), Pow(b, e - 1));
    }
  }

  lemma {:induction false} PowSum(base: nat, d: nat, e: nat)
    ensures Pow(base, d + e) == Pow(base, d) * Pow(base, e)
  {
    if d > 0 {
      PowSum(base, d - 1, e);
      var x, y := Pow(base, d - 1), Pow(base, e);
      assert base * (x * y) == base * x * y;
    }
  }

  /** (a/b)^e <= n/d, without division. */
  predicate RatioAtMost(a: nat, b: nat, e: nat, n: nat, d: nat) {
    Pow(a, e) * d <= n * Pow(b, e)
  }

  /** Squares a bound on (a/b)^e and rounds it up from (n/d)^2 to m/c. */
  lemma SquareRatio(a: nat, b: nat, e: nat, n: nat, d: nat, m: nat, c: nat)
    requires RatioAtMost(a, b, e, n, d) && n * n * c <= m * (d * d) && d > 0
    ensures RatioAtMost(a, b, 2 * e, m, c)
  {
    var x, y := Pow(a, e), Pow(b, e);
    PowSum(a, e, e);
    PowSum(b, e, e);
    MulMonotone(x * d, n * y, x * d, n * y);
    MulMonotone((x * d) * (x * d), (n * y) * (n * y), c, c);
    MulMonotone(n * n * c, m * (d * d), y * y, y * y);
    SquareRegroup(x, d, c);
    SquareRegroup(n, y, c);
    CancelFactor(x * x * c, m * (y * y), d * d) by {
      assert m * (d * d) * (y * y) == (m * (y * y)) * (d * d) by { TripleSwap(m, d * d, y * y); }
      assert n * n * c * (y * y) == (n * n) * (y * y) * c by { TripleSwap(n * n, c, y * y); }
      assert (x * x) * (d * d) * c == (x * x * c) * (d * d) by { TripleSwap(x * x, d * d, c); }
      assert d * d > 0;
    }
  }

  lemma SquareRegroup(x: nat, d: nat, c: nat)
    ensures (x * d) * (x * d) * c == (x * x) * (d * d) * c
  {
    MulRearrange(x, d, x, d);
    MulRearrange(x, x, d, d);
  }

  lemma TripleSwap(a: nat, b: nat, c: nat)
    ensures a * b * c == a * c * b
  {
  }

  lemma CancelFactor(a: nat, b: nat, k: nat)
    requires k > 0 && a * k <= b * k
    ensures a <= b
  {
    if a > b {
      MulMonotone(b + 1, a, k, k);
    }
  }

  lemma MulRearrange(a: nat, b: nat, x: nat, y: nat)
    ensures (a * b) * (x * y) == (a * x) * (b * y)
  {
    calc {
      (a * b) * (x * y);
      a * (b * (x * y));
      { assert b * (x * y) == x * (b * y); }
      a * (x * (b * y));
      (a * x) * (b * y);
    }
  }

  lemma MulMonotone(a: nat, b: nat, c: nat, d: nat)
    requires a <= b && c <= d
    ensures a * c <= b * d
  {
    assert a * c <= b * c;
    assert b * c <= b * d;
  }
}
