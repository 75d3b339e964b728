/** Powers of two. */
module Powers {

  function Pow2(k: nat): (p: nat)
    ensures p > 0
  {
    if k == 0 then 1 else 2 * Pow2(k - 1)
  }

  lemma {:induction false} Pow2Monotone(j: nat, k: nat)
    requires j <= k
    ensures Pow2(j) <= Pow2(k)
  {
    if j < k {
      Pow2Monotone(j, k - 1);
    }
  }

  lemma {:induction false} Pow2Add(j: nat, k: nat)
    ensures Pow2(j + k) == Pow2(j) * Pow2(k)
  {
    if j > 0 {
      Pow2Add(j - 1, k);
      assert Pow2(j + k) == 2 * (Pow2(j - 1) * Pow2(k));
    }
  }

  lemma Gap(d: nat, a: int, b: int)
    requires a > b
    ensures d * a >= d * b + d
  {
    assert d * a == d * (b + 1) + d * (a - b - 1);
  }

  lemma SameQuotient(d: nat, q1: int, r1: nat, q2: int, r2: nat)
    requires d > 0 && d * q1 + r1 == d * q2 + r2 && r1 < d && r2 < d
    ensures q1 == q2
  {
    if q1 > q2 {
      Gap(d, q1, q2);
    } else if q1 < q2 {
      Gap(d, q2, q1);
    }
  }

  lemma DivUnique(x: int, d: nat, q: int, r: nat)
    requires d > 0 && x == d * q + r && r < d
    ensures x / d == q && x % d == r
  {
    SameQuotient(d, x / d, x % d, q, r);
  }

  lemma MulOrder(d: nat, a: int, b: int)
    ensures a <= b ==> d * a <= d * b
  {
    if a < b {
      Gap(d, b, a);
    }
  }

  lemma DivLess(x: nat, d: nat, q: nat)
    requires d > 0 && x < d * q
    ensures x / d < q
  {
    MulOrder(d, q, x / d);
  }

  lemma HalfOfHalves(x: nat, p: nat)
    requires p > 0
    ensures x / (2 * p) == x / 2 / p
  {
    var q, r := x / 2 / p, x / 2 % p;
    var rest := 2 * r + x % 2;
    assert x / 2 == p * q + r;
    assert x == (2 * p) * q + rest by {
      assert (2 * p) * q == 2 * (p * q);
    }
    DivUnique(x, 2 * p, q, rest);
  }
}
