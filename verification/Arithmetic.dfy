/** The few facts about products, quotients and powers that the proofs need. */
module Arithmetic {

  function Pow(b: nat, e: nat): (p: nat)
    ensures b > 0 ==> p > 0
  {
    if e == 0 then 1 else b * Pow(b, e - 1)
  }

  lemma {:induction false} PowMonotone(b: nat, m: nat, n: nat)
    requires b > 0 && m <= n
    ensures Pow(b, m) <= Pow(b, n)
    decreases n - m
  {
    if m < n {
      MulMonotone(1, b, Pow(b, m));
      PowMonotone(b, m + 1, n);
    }
  }

  lemma {:induction false} PowAdd(b: nat, m: nat, n: nat)
    ensures Pow(b, m + n) == Pow(b, m) * Pow(b, n)
  {
    if m > 0 {
      PowAdd(b, m - 1, n);
      MulAssociative(b, Pow(b, m - 1), Pow(b, n));
    }
  }

  lemma {:induction false} PowMul(a: nat, b: nat, e: nat)
    ensures Pow(a * b, e) == Pow(a, e) * Pow(b, e)
  {
    if e > 0 {
      PowMul(a, b, e - 1);
      MulInterchange(a, b, Pow(a, e - 1), Pow(b, e - 1));
    }
  }

  lemma MulAssociative(a: int, b: int, c: int)
    ensures a * (b * c) == (a * b) * c
  {
  }

  lemma MulInterchange(a: int, b: int, x: int, y: int)
    ensures (a * b) * (x * y) == (a * x) * (b * y)
  {
  }

  lemma MulMonotone(a: int, b: int, p: nat)
    requires a <= b
    ensures a * p <= b * p
  {
  }

  lemma MulStrict(a: int, b: int, p: nat)
    requires a < b && p > 0
    ensures a * p < b * p
  {
  }

  lemma MulCancel(k: nat, a: int, b: int)
    requires k > 0 && k * a == k * b
    ensures a == b
  {
    if a < b {
      MulStrict(a, b, k);
    } else if b < a {
      MulStrict(b, a, k);
    }
  }

  lemma ModFixes(v: nat, m: nat)
    requires m > 0
    ensures v % m == v <==> v < m
  {
  }

  /** A quotient is pinned down by the multiples around it. */
  lemma QuotientIs(u: int, p: nat, q: int)
    requires p > 0 && q * p <= u < q * p + p
    ensures u / p == q
  {
    var r := u % p;
    assert u == (u / p) * p + r;
    if u / p > q {
      MulMonotone(q + 1, u / p, p);
    } else if u / p < q {
      MulMonotone(u / p + 1, q, p);
    }
  }
}
