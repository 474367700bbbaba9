// Small facts about multiplication and division that the verifier needs to be told.
module Arithmetic {

  function Abs(x: real): (r: real)
    ensures r >= 0.0 && (r == x || r == -x)
  {
    if x < 0.0 then -x else x
  }

  lemma {:induction false} MulMonotone(a: nat, b: nat, u: nat)
    requires a <= b
    ensures a * u <= b * u
  {
    if a < b {
      MulMonotone(a, b - 1, u);
      assert b * u == (b - 1) * u + u;
    }
  }

  /** Slot i of n slots of size u lies inside a buffer of at least n * u. */
  lemma SlotFits(i: nat, n: nat, u: nat)
    requires i < n
    ensures 0 <= i * u && i * u + u <= n * u
  {
    MulMonotone(i + 1, n, u);
    assert (i + 1) * u == i * u + u;
  }

  /** A quotient times its divisor does not exceed the dividend. */
  lemma DivTimes(n: nat, d: nat)
    requires d > 0
    ensures d * (n / d) <= n < d * (n / d) + d
  {
  }

  /** Dividing keeps the order. */
  lemma DivMonotone(a: nat, b: nat, d: nat)
    requires d > 0 && a <= b
    ensures a / d <= b / d
  {
    DivTimes(a, d);
    DivTimes(b, d);
    QuotientOrder(a, b, d, a / d, b / d);
  }

  lemma QuotientOrder(a: nat, b: nat, d: nat, q: nat, p: nat)
    requires d * q <= a <= b < d * p + d
    ensures q <= p
  {
    if q > p {
      MulMonotone(p + 1, q, d);
    }
  }

  lemma ExactDiv(u: nat, d: nat)
    requires d > 0
    ensures (d * u) / d == u
  {
    var q := (d * u) / d;
    DivTimes(d * u, d);
    if q < u {
      MulMonotone(q + 1, u, d);
    } else if q > u {
      MulMonotone(u + 1, q, d);
    }
  }

  lemma Product(a: nat, b: nat)
    ensures a * b >= 0
  {
  }

  lemma Distribute(a: int, b: int, u: int)
    ensures (a + b) * u == a * u + b * u
  {
  }

  lemma Associate(a: nat, b: nat, c: nat)
    ensures a * b * c == a * (b * c)
  {
  }

  lemma MulBoth(a: nat, b: nat, c: nat, d: nat)
    requires a <= b && c <= d
    ensures 0 <= a * c <= b * d
  {
    MulMonotone(a, b, c);
    MulMonotone(c, d, b);
    Product(a, c);
  }

  lemma MulStrict(a: nat, b: nat, q: nat)
    requires a < b && q >= 1
    ensures a * q < b * q
  {
    MulMonotone(a + 1, b, q);
    Distribute(a, 1, q);
  }

  lemma SameFactor(a: nat, b: nat, q: nat)
    requires q >= 1 && a * q == b * q
    ensures a == b
  {
    if a < b {
      MulStrict(a, b, q);
    } else if b < a {
      MulStrict(b, a, q);
    }
  }

  lemma ExactMod(k: nat, p: nat)
    requires p >= 1
    ensures (k * p) % p == 0
  {
    Product(k, p);
    ExactDiv(k, p);
    DivTimes(k * p, p);
  }

  lemma RealMonotone(a: real, b: real, s: real)
    requires s > 0.0 && a < b
    ensures a * s < b * s
  {
    assert (b - a) * s > 0.0;
  }

  lemma RealProduct(a: real, b: real)
    requires a >= 0.0 && b >= 0.0
    ensures a * b >= 0.0
  {
  }

  lemma RealSmaller(a: real, b: real, s: real)
    requires s > 0.0 && a * s < b * s
    ensures a < b
  {
    if b <= a {
      RealProduct(a - b, s);
    }
  }

  /** Half a step either way, times the size of the step. */
  lemma HalfOf(d: real, s: real)
    requires s >= 0.0 && -0.5 <= d <= 0.5
    ensures -s / 2.0 <= d * s <= s / 2.0
  {
    assert (d + 0.5) * s >= 0.0 && (0.5 - d) * s >= 0.0;
  }

  /** Quotient and remainder of a number that is given as a multiple and a rest. */
  lemma Divide(q: nat, d: nat, r: nat)
    requires r < d
    ensures 0 <= q * d + r && (q * d + r) / d == q && (q * d + r) % d == r
  {
    var n := q * d + r;
    Product(q, d);
    DivTimes(n, d);
    var k := n / d;
    if k < q {
      MulMonotone(k + 1, q, d);
      Distribute(k, 1, d);
    } else if q < k {
      MulMonotone(q + 1, k, d);
      Distribute(q, 1, d);
    }
  }

  function Pow2(n: nat): (p: nat)
    ensures p >= 1
  {
    if n == 0 then 1 else 2 * Pow2(n - 1)
  }

  lemma {:induction false} Pow2Add(a: nat, b: nat)
    ensures Pow2(a + b) == Pow2(a) * Pow2(b)
  {
    if a > 0 {
      Pow2Add(a - 1, b);
      assert Pow2(a + b) == 2 * (Pow2(a - 1) * Pow2(b)) == (2 * Pow2(a - 1)) * Pow2(b);
    }
  }
}
