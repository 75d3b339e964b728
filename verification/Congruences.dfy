/** Congruence modulo the size of a ring. */
module Congruences {
  import opened Powers

  ghost predicate Cong(a: int, b: int, p: nat)
    requires p > 0
  {
    (a - b) % p == 0
  }

  lemma FromQuotient(a: int, b: int, q: int, p: nat)
    requires p > 0 && a == b + p * q
    ensures Cong(a, b, p)
  {
    DivUnique(a - b, p, q, 0);
  }

  lemma Quotient(a: int, b: int, p: nat) returns (q: int)
    requires p > 0 && Cong(a, b, p)
    ensures a == b + p * q
  {
    q := (a - b) / p;
  }

  lemma Reduced(a: int, p: nat)
    requires p > 0
    ensures Cong(a % p, a, p)
  {
    var q := a / p;
    assert p * (0 - q) == 0 - p * q;
    FromQuotient(a % p, a, 0 - q, p);
  }

  lemma CongTrans(a: int, b: int, c: int, p: nat)
    requires p > 0 && Cong(a, b, p) && Cong(b, c, p)
    ensures Cong(a, c, p)
  {
    CongAdd(a, b, b, c, p);
    assert a + b - (b + c) == a - c;
  }

  lemma CongSym(a: int, b: int, p: nat)
    requires p > 0 && Cong(a, b, p)
    ensures Cong(b, a, p)
  {
    var q := Quotient(a, b, p);
    assert p * (0 - q) == 0 - p * q;
    FromQuotient(b, a, 0 - q, p);
  }

  lemma CongAdd(a: int, b: int, c: int, d: int, p: nat)
    requires p > 0 && Cong(a, b, p) && Cong(c, d, p)
    ensures Cong(a + c, b + d, p) && Cong(a - c, b - d, p)
  {
    var q := Quotient(a, b, p);
    var r := Quotient(c, d, p);
    assert p * (q + r) == p * q + p * r && p * (q - r) == p * q - p * r;
    FromQuotient(a + c, b + d, q + r, p);
    FromQuotient(a - c, b - d, q - r, p);
  }

  lemma CongTimes(a: int, b: int, c: int, p: nat)
    requires p > 0 && Cong(a, b, p)
    ensures Cong(c * a, c * b, p)
  {
    var q := Quotient(a, b, p);
    assert c * (b + p * q) == c * b + p * (c * q) by {
      assert c * (p * q) == p * (c * q);
    }
    FromQuotient(c * a, c * b, c * q, p);
  }

  /** Adding or subtracting in the ring. */
  lemma ReducedSum(a: int, b: int, c: int, p: nat)
    requires p > 0 && Cong(a, b, p)
    ensures Cong((a + c) % p, b + c, p) && Cong((c - a) % p, c - b, p) && Cong((a - c) % p, b - c, p)
  {
    CongAdd(a, b, 0, 0, p);
    CongAdd(c, c, a, b, p);
    CongAdd(a, b, c, c, p);
    Reduced(a + c, p);
    Reduced(c - a, p);
    Reduced(a - c, p);
    CongTrans((a + c) % p, a + c, b + c, p);
    CongTrans((c - a) % p, c - a, c - b, p);
    CongTrans((a - c) % p, a - c, b - c, p);
  }

  /** Congruent numbers have one representative in the ring. */
  lemma CongMod(a: int, b: int, p: nat)
    requires p > 0 && Cong(a, b, p)
    ensures a % p == b % p
  {
    var q := Quotient(a, b, p);
    var r := b / p;
    assert p * (q + r) == p * q + p * r;
    DivUnique(a, p, q + r, b % p);
  }

  lemma CongZero(a: int, b: int, p: nat)
    requires p > 0 && Cong(a, b, p)
    ensures a % p == 0 <==> b % p == 0
  {
    CongMod(a, b, p);
  }
}
